/**
 The flood move. The region is recoloured and outside tiles of the chosen
 colour next to it are annexed, by one row-major scan of the square
 [0, |inside|)^2 whose bound is re-read as the region grows. A tile annexed
 at a position the scan has already passed is not visited again, so a
 single move need not reach every tile connected to the region through the
 chosen colour. On a 3-by-3 board whose region is the top row and the right
 column, with Red at (0, 2) and (1, 2), a Red move annexes (1, 2) from
 (2, 2) after passing column 1, and (0, 2) stays outside. When every
 outside tile has the chosen colour, though, the move takes them all.
 */
module Flooding {

  import opened Optional
  import opened Geometry
  import opened Tiles
  import opened Boards

  /** What a flood move with colour k may do to a board b0, seen from its
      result b: the region only grows, outside tiles keep their colours,
      region tiles at most take colour k, and every annexed tile was an
      outside tile of colour k lying next to a tile of the region. */
  ghost predicate Grown(b0: Board, b: Board, k: WaterColor) {
    && b.size == b0.size
    && b0.inside.Keys <= b.inside.Keys
    && b.outside.Keys <= b0.outside.Keys
    && (forall c :: c in b.outside ==> b.outside[c] == b0.outside[c])
    && (forall c :: c in b0.inside ==> b.inside[c] == b0.inside[c] || b.inside[c] == k)
    && (forall c :: c in b.inside && c !in b0.inside ==>
          && c in b0.outside
          && b0.outside[c] == k
          && b.inside[c] == k
          && LinkedTo(b, b0.inside.Keys, c))
  }

  lemma GrownReflexive(b: Board, k: WaterColor)
    ensures Grown(b, b, k)
  {
  }

  lemma GrownTransitive(b0: Board, b1: Board, b2: Board, k: WaterColor)
    requires Grown(b0, b1, k) && Grown(b1, b2, k)
    requires b0.inside.Keys !! b0.outside.Keys
    ensures Grown(b0, b2, k)
  {
    forall c | c in b2.inside && c !in b0.inside
      ensures LinkedTo(b2, b0.inside.Keys, c)
    {
      if c in b1.inside {
        var p := PathOf(b1, b0.inside.Keys, c);
        PathGrows(b1, b2, p);
      } else {
        var q := PathOf(b2, b1.inside.Keys, c);
        if q[0] !in b0.inside {
          var p := PathOf(b1, b0.inside.Keys, q[0]);
          PathGrows(b1, b2, p);
          PathJoin(b2, p, q);
        }
      }
    }
  }

  /** Growth keeps the region in one piece: an old tile keeps its walk
      from the corner, and a new tile extends the walk to the old tile it
      was reached from. */
  lemma GrownKeepsConnected(b0: Board, b: Board, k: WaterColor)
    requires Grown(b0, b, k) && Connected(b0)
    ensures Connected(b)
  {
    forall c | c in b.inside ensures LinkedTo(b, {Origin}, c) {
      if c in b0.inside {
        KeepLink(b0, b, c);
      } else {
        ExtendLink(b0, b, c);
      }
    }
  }

  /** A walk from the corner survives growth of the region. */
  lemma KeepLink(b0: Board, b: Board, c: Coord)
    requires b.size == b0.size && b0.inside.Keys <= b.inside.Keys
    requires LinkedTo(b0, {Origin}, c)
    ensures LinkedTo(b, {Origin}, c)
  {
    var p := PathOf(b0, {Origin}, c);
    PathGrows(b0, b, p);
  }

  /** A walk from the old region to c, after a walk from the corner to its
      start, makes a walk from the corner to c. */
  lemma ExtendLink(b0: Board, b: Board, c: Coord)
    requires b.size == b0.size && b0.inside.Keys <= b.inside.Keys
    requires Connected(b0)
    requires LinkedTo(b, b0.inside.Keys, c)
    ensures LinkedTo(b, {Origin}, c)
  {
    var q := PathOf(b, b0.inside.Keys, c);
    var p := PathOf(b0, {Origin}, q[0]);
    PathGrows(b0, b, p);
    PathJoin(b, p, q);
  }

  /** Moves the tile under c from outside to inside, painted k. */
  function Move(b: Board, c: Coord, k: WaterColor): (r: Board)
    requires c in b.outside
    ensures r.size == b.size
    ensures r.inside.Keys == b.inside.Keys + {c}
    ensures r.outside.Keys == b.outside.Keys - {c}
    ensures r.inside[c] == k
    ensures forall d :: d in b.inside && d != c ==> r.inside[d] == b.inside[d]
    ensures forall d :: d in r.outside ==> r.outside[d] == b.outside[d]
  {
    Board(b.size, b.inside[c := k], b.outside - {c})
  }

  /** Paints the tile that `Board.get` finds under p: afterwards lookup
      there gives a tile of colour k, every other lookup is unchanged, and
      no tile changes side. */
  function Paint(b: Board, p: Coord, k: WaterColor): (r: Board)
    ensures r.size == b.size && r.inside.Keys == b.inside.Keys && r.outside.Keys == b.outside.Keys
    ensures Get(r, p) == if Get(b, p).Some? then Some(Tile(p, k)) else None
    ensures forall c :: c != p ==> Get(r, c) == Get(b, c)
  {
    if p in b.outside then b.(outside := b.outside[p := k])
    else if p in b.inside then b.(inside := b.inside[p := k])
    else b
  }

  /** The tiles that went from outside b to inside r. */
  function Annexed(b: Board, r: Board): set<Coord> {
    b.outside.Keys - r.outside.Keys
  }

  /** Goes through the candidates in order and annexes each one that is
      still outside and has colour k: exactly the candidates that are
      outside with colour k are moved and painted k, and nothing else
      changes. */
  function Annex(b: Board, k: WaterColor, ns: seq<Coord>): (r: Board)
    ensures r.size == b.size
    ensures r.outside.Keys <= b.outside.Keys
    ensures r.inside.Keys == b.inside.Keys + Annexed(b, r)
    ensures forall c :: c in r.outside ==> r.outside[c] == b.outside[c]
    ensures forall c :: c in Annexed(b, r) ==> c in ns && b.outside[c] == k && r.inside[c] == k
    ensures forall c :: c in b.inside && c !in Annexed(b, r) ==> r.inside[c] == b.inside[c]
    ensures forall c :: c in ns && c in b.outside && b.outside[c] == k ==> c in Annexed(b, r)
    decreases |ns|
  {
    if ns == [] then b
    else if ns[0] in b.outside && b.outside[ns[0]] == k then
      var r := Annex(Move(b, ns[0], k), k, ns[1..]);
      assert forall c :: c in ns[1..] ==> c in ns;
      r
    else
      var r := Annex(b, k, ns[1..]);
      assert forall c :: c in ns[1..] ==> c in ns;
      r
  }

  lemma AnnexPartition(b: Board, r: Board)
    requires Partitioned(b)
    requires r.size == b.size && r.outside.Keys <= b.outside.Keys
    requires r.inside.Keys == b.inside.Keys + Annexed(b, r)
    ensures Partitioned(r)
  {
    assert r.inside.Keys + r.outside.Keys == b.inside.Keys + b.outside.Keys;
  }

  /** Annexing cells no further from the origin than the region is large
      keeps every region cell within the region size of the origin. */
  lemma AnnexCompact(b: Board, r: Board, ns: seq<Coord>)
    requires Compact(b) && b.inside.Keys !! b.outside.Keys
    requires forall i :: 0 <= i < |ns| ==> ns[i].x + ns[i].y <= |b.inside|
    requires r.inside.Keys == b.inside.Keys + Annexed(b, r)
    requires forall c :: c in Annexed(b, r) ==> c in ns
    ensures Compact(r)
  {
    var added := Annexed(b, r);
    assert b.inside.Keys !! added;
    assert |r.inside.Keys| == |b.inside.Keys| + |added|;
    forall c | c in r.inside ensures c.x + c.y < |r.inside| {
      if c in added {
        assert |added| > 0;
        var i :| 0 <= i < |ns| && ns[i] == c;
      }
    }
  }

  /** The scan's work at one position p: if p is in the region, paint it
      (only when `recolor` is set) and annex its neighbours of colour k.
      Exactly the outside neighbours of p with colour k are annexed. */
  function Visit(b: Board, k: WaterColor, p: Coord, recolor: bool): (r: Board)
    requires WellFormed(b)
    ensures WellFormed(r)
    ensures Grown(b, r, k)
    ensures r.inside.Keys == b.inside.Keys + Annexed(b, r)
    ensures forall c :: c in Annexed(b, r) ==> p in b.inside && c in Neighbors(p, b.size)
    ensures p in b.inside ==> Absorbed(b, r, k, p)
    ensures forall c :: c in b.inside ==>
              r.inside[c] == if recolor && c == p then k else b.inside[c]
  {
    if p !in b.inside then
      GrownReflexive(b, k);
      b
    else
      var painted := if recolor then Paint(b, p, k) else b;
      var r := Annex(painted, k, Neighbors(p, b.size));
      VisitWellFormed(b, k, p, recolor, painted, r);
      VisitGrown(b, k, p, recolor, painted, r);
      r
  }

  /** Tiles that join the region next to one of its tiles are reached from
      the old region by a walk of two steps. */
  lemma NeighborsLinked(b: Board, r: Board, p: Coord)
    requires p in b.inside && r.size == b.size && b.inside.Keys <= r.inside.Keys
    requires forall c :: c in r.inside && c !in b.inside ==> c in Neighbors(p, b.size)
    ensures forall c :: c in r.inside && c !in b.inside ==> LinkedTo(r, b.inside.Keys, c)
  {
    forall c | c in r.inside && c !in b.inside ensures LinkedTo(r, b.inside.Keys, c) {
      assert RegionPath(r, [p, c]);
    }
  }

  /** Painting a region tile changes no key and no other tile. */
  lemma PaintKeeps(b: Board, p: Coord, k: WaterColor)
    requires b.inside.Keys !! b.outside.Keys && p in b.inside
    ensures Paint(b, p, k) == b.(inside := b.inside[p := k])
    ensures Paint(b, p, k).inside.Keys == b.inside.Keys
  {
  }

  lemma VisitWellFormed(b: Board, k: WaterColor, p: Coord, recolor: bool, painted: Board, r: Board)
    requires WellFormed(b) && p in b.inside
    requires painted == if recolor then Paint(b, p, k) else b
    requires r == Annex(painted, k, Neighbors(p, b.size))
    ensures WellFormed(r)
  {
    PaintKeeps(b, p, k);
    var ns := Neighbors(p, b.size);
    forall i | 0 <= i < |ns| ensures ns[i].x + ns[i].y <= |painted.inside| {
      assert Distance(p, ns[i]) == 1;
    }
    AnnexPartition(painted, r);
    AnnexCompact(painted, r, ns);
  }

  lemma VisitGrown(b: Board, k: WaterColor, p: Coord, recolor: bool, painted: Board, r: Board)
    requires b.inside.Keys !! b.outside.Keys && p in b.inside
    requires painted == if recolor then Paint(b, p, k) else b
    requires r == Annex(painted, k, Neighbors(p, b.size))
    ensures Grown(b, r, k)
    ensures r.inside.Keys == b.inside.Keys + Annexed(b, r)
    ensures forall c :: c in Annexed(b, r) ==> c in Neighbors(p, b.size)
    ensures forall c :: c in Neighbors(p, b.size) && c in b.outside && b.outside[c] == k
              ==> c in Annexed(b, r)
    ensures forall c :: c in b.inside ==>
              r.inside[c] == if recolor && c == p then k else b.inside[c]
  {
    PaintKeeps(b, p, k);
    assert Annexed(b, r) == Annexed(painted, r);
    assert forall c :: c in b.inside ==> c !in Annexed(b, r);
    assert p in r.inside;
    NeighborsLinked(b, r, p);
  }

  /** A cell the row-major scan standing at (x, y) has not yet visited. */
  predicate Pending(c: Coord, x: int, y: int) {
    c.y > y || (c.y == y && c.x >= x)
  }

  lemma StrictSubsetSmaller<T>(a: set<T>, b: set<T>)
    requires a < b
    ensures |a| < |b|
  {
    var e :| e in b && e !in a;
    assert b == a + (b - a);
    assert a * (b - a) == {};
    assert e in b - a;
  }

  lemma SubsetNoLarger<T>(a: set<T>, b: set<T>)
    requires a <= b
    ensures |a| <= |b|
  {
    assert b == a + (b - a);
  }

  /** A step that moves tiles only from outside to inside either shrinks
      the outside or leaves both key sets as they were. */
  lemma StepMeasure(b: Board, next: Board)
    requires next.outside.Keys <= b.outside.Keys
    requires next.inside.Keys == b.inside.Keys + (b.outside.Keys - next.outside.Keys)
    ensures |next.outside.Keys| < |b.outside.Keys| ||
            (|next.outside.Keys| == |b.outside.Keys| && |next.inside| == |b.inside|)
  {
    if next.outside.Keys != b.outside.Keys {
      StrictSubsetSmaller(next.outside.Keys, b.outside.Keys);
    } else {
      assert next.inside.Keys == b.inside.Keys;
    }
  }

  /** When tiles only move from outside to inside and no cell is lost,
      the region is the old one plus exactly the tiles that left the
      outside. */
  lemma MovedKeys<T>(bi: set<T>, bo: set<T>, ri: set<T>, ro: set<T>)
    requires bi !! bo && ri !! ro && bi + bo == ri + ro
    requires bi <= ri && ro <= bo
    ensures ri == bi + (bo - ro)
  {
  }

  /** Between two partitioned boards of one size whose region only grew,
      the region gained exactly the tiles that left the outside, and the
      scan's termination measure does not go up. */
  lemma RowKeys(b: Board, row: Board)
    requires Partitioned(b) && Partitioned(row) && b.size == row.size
    requires b.inside.Keys <= row.inside.Keys && row.outside.Keys <= b.outside.Keys
    ensures row.inside.Keys == b.inside.Keys + Annexed(b, row)
    ensures |row.outside.Keys| < |b.outside.Keys| ||
            (|row.outside.Keys| == |b.outside.Keys| && |row.inside| == |b.inside|)
  {
    SameCells(b, row);
    MovedKeys(b.inside.Keys, b.outside.Keys, row.inside.Keys, row.outside.Keys);
    StepMeasure(b, row);
  }

  /** After the visit at (x, y) that cell is no longer pending: it has
      colour k if it is in the region, and so has every annexed cell. */
  lemma VisitedNotPending(b: Board, next: Board, k: WaterColor, x: int, y: int, recolor: bool)
    requires forall c :: c in b.inside ==> b.inside[c] == k || (recolor && Pending(c, x, y))
    requires next.inside.Keys == b.inside.Keys + Annexed(b, next)
    requires forall c :: c in next.inside && c !in b.inside ==> next.inside[c] == k
    requires forall c :: c in b.inside ==>
               next.inside[c] == if recolor && c == Coord(x, y) then k else b.inside[c]
    ensures forall c :: c in next.inside ==> next.inside[c] == k || (recolor && Pending(c, x + 1, y))
  {
  }

  /** Once the row index reaches the region size no region cell is
      pending: every one lies in an earlier row. */
  lemma PendingPastLastRow(b: Board, x: int, y: int)
    requires WellFormed(b) && y >= |b.inside|
    ensures forall c :: c in b.inside ==> !Pending(c, x, y)
  {
    forall c | c in b.inside ensures !Pending(c, x, y) {
      assert InGrid(c, b.size);
    }
  }

  /** Past the end of a row nothing in that row is pending, so the scan
      may move to the start of the next row. */
  lemma PendingPastRowEnd(b: Board, x: int, y: int)
    requires WellFormed(b) && x >= |b.inside|
    ensures forall c :: c in b.inside && Pending(c, x, y) ==> Pending(c, 0, y + 1)
  {
    forall c | c in b.inside && Pending(c, x, y) ensures Pending(c, 0, y + 1) {
      assert InGrid(c, b.size);
    }
  }

  /** Before any visit every region cell is pending. */
  lemma AllPendingAtStart(b: Board)
    requires WellFormed(b)
    ensures forall c :: c in b.inside ==> Pending(c, 0, 0)
  {
    forall c | c in b.inside ensures Pending(c, 0, 0) {
      assert InGrid(c, b.size);
    }
  }

  /** The inner loop: row y from column x while x is below the current
      region size. Region tiles it passes take colour k, and every outside
      tile of colour k next to a region tile it passes is annexed. */
  function ScanRow(b: Board, k: WaterColor, x: nat, y: nat, recolor: bool): (r: Board)
    requires WellFormed(b)
    requires forall c :: c in b.inside ==> b.inside[c] == k || (recolor && Pending(c, x, y))
    ensures WellFormed(r)
    ensures Grown(b, r, k)
    ensures forall c :: c in r.inside ==> r.inside[c] == k || (recolor && Pending(c, 0, y + 1))
    ensures forall d :: d in b.inside && Pending(d, x, y) ==> Absorbed(b, r, k, d) || Pending(d, 0, y + 1)
    ensures OutsideColoured(b, k) && Swept(b, x, y) ==> Swept(r, 0, y + 1) && OutsideColoured(r, k)
    decreases |b.outside.Keys|, |b.inside| - x, 1
  {
    if x >= |b.inside| then
      PendingPastRowEnd(b, x, y);
      SweptRowEnd(b, x, y);
      GrownReflexive(b, k);
      b
    else
      VisitThenScanRow(b, k, x, y, recolor)
  }

  /** One turn of the inner loop: visit (x, y), then scan the rest of the
      row from the next column. */
  function VisitThenScanRow(b: Board, k: WaterColor, x: nat, y: nat, recolor: bool): (r: Board)
    requires WellFormed(b) && x < |b.inside|
    requires forall c :: c in b.inside ==> b.inside[c] == k || (recolor && Pending(c, x, y))
    ensures WellFormed(r)
    ensures Grown(b, r, k)
    ensures forall c :: c in r.inside ==> r.inside[c] == k || (recolor && Pending(c, 0, y + 1))
    ensures forall d :: d in b.inside && Pending(d, x, y) ==> Absorbed(b, r, k, d) || Pending(d, 0, y + 1)
    ensures OutsideColoured(b, k) && Swept(b, x, y) ==> Swept(r, 0, y + 1) && OutsideColoured(r, k)
    decreases |b.outside.Keys|, |b.inside| - x, 0
  {
    var next := Visit(b, k, Coord(x, y), recolor);
    StepMeasure(b, next);
    VisitSweeps(b, k, x, y, recolor);
    VisitedNotPending(b, next, k, x, y, recolor);
    var r := ScanRow(next, k, x + 1, y, recolor);
    GrownTransitive(b, next, r, k);
    RowFrontierStep(b, next, r, k, x, y);
    r
  }

  /** Every outside tile of colour k next to d on board b is in the
      region of board r. */
  ghost predicate Absorbed(b: Board, r: Board, k: WaterColor, d: Coord) {
    forall c :: c in Neighbors(d, b.size) && c in b.outside && b.outside[c] == k ==> c in r.inside
  }

  /** Absorption carries back over a step that only annexes: a neighbour
      the step did not take is still outside with its colour. */
  lemma AbsorbedBack(b: Board, next: Board, r: Board, k: WaterColor, d: Coord)
    requires next.size == b.size && next.outside.Keys <= b.outside.Keys
    requires next.inside.Keys == b.inside.Keys + Annexed(b, next)
    requires forall c :: c in next.outside ==> next.outside[c] == b.outside[c]
    requires next.inside.Keys <= r.inside.Keys
    requires Absorbed(next, r, k, d)
    ensures Absorbed(b, r, k, d)
  {
  }

  /** Absorption into a region carries over to any larger region. */
  lemma AbsorbedForward(b: Board, next: Board, r: Board, k: WaterColor, d: Coord)
    requires Absorbed(b, next, k, d) && next.inside.Keys <= r.inside.Keys
    ensures Absorbed(b, r, k, d)
  {
  }

  /** The frontier claim of ScanRow carries back over the visit at (x, y):
      the neighbours of the visited cell were annexed by the visit itself,
      and every other pending cell is still pending afterwards. */
  lemma RowFrontierStep(b: Board, next: Board, r: Board, k: WaterColor, x: int, y: int)
    requires next.size == b.size && next.outside.Keys <= b.outside.Keys
    requires next.inside.Keys == b.inside.Keys + Annexed(b, next)
    requires forall c :: c in next.outside ==> next.outside[c] == b.outside[c]
    requires Coord(x, y) in b.inside ==> Absorbed(b, next, k, Coord(x, y))
    requires next.inside.Keys <= r.inside.Keys
    requires forall d :: d in next.inside && Pending(d, x + 1, y) ==> Absorbed(next, r, k, d) || Pending(d, 0, y + 1)
    ensures forall d :: d in b.inside && Pending(d, x, y) ==> Absorbed(b, r, k, d) || Pending(d, 0, y + 1)
  {
    forall d | d in b.inside && Pending(d, x, y) && !Pending(d, 0, y + 1)
      ensures Absorbed(b, r, k, d)
    {
      if d != Coord(x, y) {
        assert Pending(d, x + 1, y);
        AbsorbedBack(b, next, r, k, d);
      } else {
        AbsorbedForward(b, next, r, k, d);
      }
    }
  }

  /** The outer loop: rows from y onwards while y is below the current
      region size. Afterwards the whole region has colour k, and every
      outside tile of colour k next to a region tile in those rows has
      been annexed. */
  function Scan(b: Board, k: WaterColor, y: nat, recolor: bool): (r: Board)
    requires WellFormed(b)
    requires forall c :: c in b.inside ==> b.inside[c] == k || (recolor && Pending(c, 0, y))
    ensures WellFormed(r)
    ensures Grown(b, r, k)
    ensures forall c :: c in r.inside ==> r.inside[c] == k
    ensures forall d :: d in b.inside && Pending(d, 0, y) ==> Absorbed(b, r, k, d)
    ensures OutsideColoured(b, k) && Swept(b, 0, y) ==> forall c :: InGrid(c, b.size) ==> c in r.inside
    decreases |b.outside.Keys|, |b.inside| - y, 1
  {
    if y >= |b.inside| then
      PendingPastLastRow(b, 0, y);
      SweptLastRow(b, y);
      GrownReflexive(b, k);
      b
    else
      ScanRowThenScan(b, k, y, recolor)
  }

  /** One turn of the outer loop: scan row y, then the rows after it. */
  function ScanRowThenScan(b: Board, k: WaterColor, y: nat, recolor: bool): (r: Board)
    requires WellFormed(b) && y < |b.inside|
    requires forall c :: c in b.inside ==> b.inside[c] == k || (recolor && Pending(c, 0, y))
    ensures WellFormed(r)
    ensures Grown(b, r, k)
    ensures forall c :: c in r.inside ==> r.inside[c] == k
    ensures forall d :: d in b.inside && Pending(d, 0, y) ==> Absorbed(b, r, k, d)
    ensures OutsideColoured(b, k) && Swept(b, 0, y) ==> forall c :: InGrid(c, b.size) ==> c in r.inside
    decreases |b.outside.Keys|, |b.inside| - y, 0
  {
    var row := ScanRow(b, k, 0, y, recolor);
    RowKeys(b, row);
    var r := Scan(row, k, y + 1, recolor);
    GrownTransitive(b, row, r, k);
    ScanFrontierStep(b, row, r, k, y);
    r
  }

  /** The frontier claim of Scan carries back over one row. */
  lemma ScanFrontierStep(b: Board, row: Board, r: Board, k: WaterColor, y: int)
    requires row.size == b.size && row.outside.Keys <= b.outside.Keys
    requires row.inside.Keys == b.inside.Keys + Annexed(b, row)
    requires forall c :: c in row.outside ==> row.outside[c] == b.outside[c]
    requires forall d :: d in b.inside && Pending(d, 0, y) ==> Absorbed(b, row, k, d) || Pending(d, 0, y + 1)
    requires row.inside.Keys <= r.inside.Keys
    requires forall d :: d in row.inside && Pending(d, 0, y + 1) ==> Absorbed(row, r, k, d)
    ensures forall d :: d in b.inside && Pending(d, 0, y) ==> Absorbed(b, r, k, d)
  {
    forall d | d in b.inside && Pending(d, 0, y) ensures Absorbed(b, r, k, d) {
      if Pending(d, 0, y + 1) {
        AbsorbedBack(b, row, r, k, d);
      }
    }
  }

  /** The flood move as `Board.flood` performs it: each region tile is
      painted when the scan reaches it. */
  function Flood(b: Board, k: WaterColor): (r: Board)
    requires WellFormed(b)
    ensures WellFormed(r)
    ensures Grown(b, r, k)
    ensures forall c :: c in r.inside ==> r.inside[c] == k
  {
    Scan(b, k, 0, true)
  }

  /** Paints every tile of the region k. */
  function PaintRegion(b: Board, k: WaterColor): (r: Board)
    requires WellFormed(b)
    ensures WellFormed(r)
    ensures Grown(b, r, k)
    ensures r.inside.Keys == b.inside.Keys && r.outside == b.outside
    ensures forall c :: c in r.inside ==> r.inside[c] == k
  {
    var r := b.(inside := map c | c in b.inside :: k);
    assert r.inside.Keys == b.inside.Keys;
    r
  }

  /** The variant that paints the whole region first and then scans only
      to annex. */
  function Flood1(b: Board, k: WaterColor): (r: Board)
    requires WellFormed(b)
    ensures WellFormed(r)
    ensures Grown(b, r, k)
    ensures forall c :: c in r.inside ==> r.inside[c] == k
  {
    var painted := PaintRegion(b, k);
    var r := Scan(painted, k, 0, false);
    GrownTransitive(b, painted, r, k);
    r
  }

  /** A flood annexes every outside tile of colour k that touches the
      region as it was before the move. Together with Grown, which says
      every annexed tile had colour k and touches the final region, this
      pins the move down up to tiles reached only through freshly annexed
      ones. */
  lemma FloodAnnexesFrontier(b: Board, k: WaterColor)
    requires WellFormed(b)
    ensures forall d :: d in b.inside ==> Absorbed(b, Flood(b, k), k, d)
  {
    AllPendingAtStart(b);
  }

  /** The same for the variant that paints first. */
  lemma Flood1AnnexesFrontier(b: Board, k: WaterColor)
    requires WellFormed(b)
    ensures forall d :: d in b.inside ==> Absorbed(b, Flood1(b, k), k, d)
  {
    AllPendingAtStart(b);
  }

  /** A flood move keeps the region in one piece. */
  lemma FloodKeepsConnected(b: Board, k: WaterColor)
    requires WellFormed(b) && Connected(b)
    ensures Connected(Flood(b, k))
  {
    GrownKeepsConnected(b, Flood(b, k), k);
  }

  /** So does `flood1`. */
  lemma Flood1KeepsConnected(b: Board, k: WaterColor)
    requires WellFormed(b) && Connected(b)
    ensures Connected(Flood1(b, k))
  {
    GrownKeepsConnected(b, Flood1(b, k), k);
  }

  /** Every outside tile has colour k. */
  ghost predicate OutsideColoured(b: Board, k: WaterColor) {
    forall c :: c in b.outside ==> b.outside[c] == k
  }

  /** Every board cell the scan standing at (x, y) has passed is in the
      region, and so are its right and lower neighbours on the board. */
  ghost predicate Swept(b: Board, x: int, y: int) {
    forall c :: InGrid(c, b.size) && !Pending(c, x, y) ==>
      && c in b.inside
      && (c.x + 1 < b.size ==> Coord(c.x + 1, c.y) in b.inside)
      && (c.y + 1 < b.size ==> Coord(c.x, c.y + 1) in b.inside)
  }

  /** The cell the scan stands on is in the region once everything before
      it is swept: it lies right of, or below, a passed cell, or it is the
      origin. */
  lemma SweptReachesCurrent(b: Board, x: int, y: int)
    requires WellFormed(b) && Swept(b, x, y) && InGrid(Coord(x, y), b.size)
    ensures Coord(x, y) in b.inside
  {
    if x > 0 {
      assert InGrid(Coord(x - 1, y), b.size) && !Pending(Coord(x - 1, y), x, y);
    } else if y > 0 {
      assert InGrid(Coord(0, y - 1), b.size) && !Pending(Coord(0, y - 1), x, y);
    }
  }

  /** Past the end of the row the rest of the row is off the board, since
      the next cell would be in the region and so before the bound. */
  lemma SweptRowEnd(b: Board, x: int, y: int)
    requires WellFormed(b) && x >= |b.inside|
    ensures Swept(b, x, y) ==> Swept(b, 0, y + 1)
  {
    if Swept(b, x, y) && InGrid(Coord(x, y), b.size) {
      SweptReachesCurrent(b, x, y);
    }
  }

  /** Past the last row every board cell has been swept into the region. */
  lemma SweptLastRow(b: Board, y: int)
    requires WellFormed(b) && y >= |b.inside|
    ensures Swept(b, 0, y) ==> forall c :: InGrid(c, b.size) ==> c in b.inside
  {
    if Swept(b, 0, y) && InGrid(Coord(0, y), b.size) {
      SweptReachesCurrent(b, 0, y);
    }
  }

  /** The right and lower neighbours of a region cell p on the board are
      taken by a step that absorbs p's neighbours of colour k, when every
      outside tile has colour k. */
  lemma RightAndDownTaken(b: Board, next: Board, k: WaterColor, p: Coord)
    requires Partitioned(b) && OutsideColoured(b, k) && InGrid(p, b.size)
    requires Absorbed(b, next, k, p) && b.inside.Keys <= next.inside.Keys
    ensures p.x + 1 < b.size ==> Coord(p.x + 1, p.y) in next.inside
    ensures p.y + 1 < b.size ==> Coord(p.x, p.y + 1) in next.inside
  {
    NeighborsInGrid(p, b.size);
    assert Distance(p, Coord(p.x + 1, p.y)) == 1 && Distance(p, Coord(p.x, p.y + 1)) == 1;
  }

  /** A step that absorbs the neighbours of the current cell moves the
      sweep one cell on, and keeps the outside one colour. */
  lemma SweepStep(b: Board, next: Board, k: WaterColor, x: int, y: int)
    requires WellFormed(b) && OutsideColoured(b, k) && Swept(b, x, y)
    requires next.size == b.size && b.inside.Keys <= next.inside.Keys
    requires next.outside.Keys <= b.outside.Keys
    requires forall c :: c in next.outside ==> next.outside[c] == b.outside[c]
    requires Coord(x, y) in b.inside ==> Absorbed(b, next, k, Coord(x, y))
    ensures Swept(next, x + 1, y) && OutsideColoured(next, k)
  {
    var p := Coord(x, y);
    if InGrid(p, b.size) {
      SweptReachesCurrent(b, x, y);
      RightAndDownTaken(b, next, k, p);
    }
    forall c | InGrid(c, next.size) && !Pending(c, x + 1, y)
      ensures c in next.inside
      ensures c.x + 1 < next.size ==> Coord(c.x + 1, c.y) in next.inside
      ensures c.y + 1 < next.size ==> Coord(c.x, c.y + 1) in next.inside
    {
      if c != p {
        assert !Pending(c, x, y);
      }
    }
  }

  /** The visit at (x, y) is such a step. */
  lemma VisitSweeps(b: Board, k: WaterColor, x: int, y: int, recolor: bool)
    requires WellFormed(b)
    ensures var next := Visit(b, k, Coord(x, y), recolor);
      OutsideColoured(b, k) && Swept(b, x, y) ==> Swept(next, x + 1, y) && OutsideColoured(next, k)
  {
    if OutsideColoured(b, k) && Swept(b, x, y) {
      SweepStep(b, Visit(b, k, Coord(x, y), recolor), k, x, y);
    }
  }

  /** A region next to nothing but tiles of colour k: the move with k
      takes every cell, so the board is fully flooded afterwards. */
  lemma FloodTakesOneColouredOutside(b: Board, k: WaterColor)
    requires WellFormed(b) && OutsideColoured(b, k)
    ensures FullyFlooded(Flood(b, k))
  {
    NothingLeftOutside(Flood(b, k));
  }

  /** The same for the variant that paints first. */
  lemma Flood1TakesOneColouredOutside(b: Board, k: WaterColor)
    requires WellFormed(b) && OutsideColoured(b, k)
    ensures FullyFlooded(Flood1(b, k))
  {
    NothingLeftOutside(Flood1(b, k));
  }

  /** A board whose region holds every board cell has no outside tile. */
  lemma NothingLeftOutside(b: Board)
    requires WellFormed(b) && forall c :: InGrid(c, b.size) ==> c in b.inside
    ensures FullyFlooded(b)
  {
    assert b.outside.Keys == {};
  }

  /** Every tile of the board, inside or outside, has colour k. */
  ghost predicate OneColour(b: Board, k: WaterColor) {
    forall c :: InGrid(c, b.size) ==> Get(b, c) == Some(Tile(c, k))
  }

  /** After a move with k, `Board.fullyFlooded` holds exactly when all tiles
      of the board have the same colour, and that colour is k. */
  lemma FloodFullyFloodedIffOneColour(b0: Board, k: WaterColor)
    requires WellFormed(b0)
    ensures var b := Flood(b0, k); FullyFlooded(b) <==> exists j :: OneColour(b, j)
    ensures var b := Flood(b0, k); FullyFlooded(b) ==> OneColour(b, k)
  {
    var b := Flood(b0, k);
    FullyFloodedOneColour(b0, b, k);
    if exists j :: OneColour(b, j) {
      var j :| OneColour(b, j);
      OneColourOutside(b0, b, k, j);
      FloodTakesOneColouredOutside(b0, k);
    }
  }

  /** The same for the variant that paints first. */
  lemma Flood1FullyFloodedIffOneColour(b0: Board, k: WaterColor)
    requires WellFormed(b0)
    ensures var b := Flood1(b0, k); FullyFlooded(b) <==> exists j :: OneColour(b, j)
    ensures var b := Flood1(b0, k); FullyFlooded(b) ==> OneColour(b, k)
  {
    var b := Flood1(b0, k);
    FullyFloodedOneColour(b0, b, k);
    if exists j :: OneColour(b, j) {
      var j :| OneColour(b, j);
      OneColourOutside(b0, b, k, j);
      Flood1TakesOneColouredOutside(b0, k);
    }
  }

  /** A fully flooded board whose region is painted k is all k. */
  lemma FullyFloodedOneColour(b0: Board, b: Board, k: WaterColor)
    requires WellFormed(b) && forall c :: c in b.inside ==> b.inside[c] == k
    ensures FullyFlooded(b) ==> OneColour(b, k)
  {
    if FullyFlooded(b) {
      forall c | InGrid(c, b.size) ensures Get(b, c) == Some(Tile(c, k)) {
        assert c !in b.outside;
      }
    }
  }

  /** If a move with k leaves every tile of one colour j, then j is k and
      every tile that was outside before the move had colour k. */
  lemma OneColourOutside(b0: Board, b: Board, k: WaterColor, j: WaterColor)
    requires WellFormed(b0) && WellFormed(b) && Grown(b0, b, k)
    requires forall c :: c in b.inside ==> b.inside[c] == k
    requires OneColour(b, j)
    ensures j == k && OutsideColoured(b0, k)
  {
    assert InGrid(Origin, b.size) && Origin !in b.outside;
    forall c | c in b0.outside ensures b0.outside[c] == k {
      assert InGrid(c, b.size);
      if c in b.outside {
        assert Get(b, c) == Some(Tile(c, k));
      } else {
        assert c in b.inside && c !in b0.inside;
      }
    }
  }

  /** The region never shrinks, so the number of flooded tiles never goes
      down and the number of outside tiles never goes up. */
  lemma FloodNeverShrinks(b: Board, k: WaterColor)
    requires WellFormed(b)
    ensures |Flood(b, k).inside| >= |b.inside|
    ensures |Flood(b, k).outside| <= |b.outside|
    ensures b.inside.Keys <= Flood(b, k).inside.Keys
  {
    var r := Flood(b, k);
    SubsetNoLarger(b.inside.Keys, r.inside.Keys);
    SubsetNoLarger(r.outside.Keys, b.outside.Keys);
  }

  /** On a fully flooded board there is nothing to annex: the move only
      repaints the region, and the board stays fully flooded. */
  lemma FloodOnFullyFlooded(b: Board, k: WaterColor)
    requires WellFormed(b) && FullyFlooded(b)
    ensures FullyFlooded(Flood(b, k))
    ensures Flood(b, k) == PaintRegion(b, k)
  {
    NothingToAnnex(b, Flood(b, k), k);
  }

  /** The variant that paints first does the same there, so on such a
      board the two variants agree. */
  lemma Flood1OnFullyFlooded(b: Board, k: WaterColor)
    requires WellFormed(b) && FullyFlooded(b)
    ensures Flood1(b, k) == PaintRegion(b, k)
    ensures Flood1(b, k) == Flood(b, k)
  {
    NothingToAnnex(b, Flood1(b, k), k);
    FloodOnFullyFlooded(b, k);
  }

  /** A move from a board with no outside tiles can only repaint. */
  lemma NothingToAnnex(b: Board, r: Board, k: WaterColor)
    requires Grown(b, r, k) && |b.outside| == 0
    requires forall c :: c in r.inside ==> r.inside[c] == k
    ensures r == b.(inside := map c | c in b.inside :: k)
  {
    assert r.outside.Keys == {};
    assert r.inside.Keys == b.inside.Keys;
    SameShapeSameBoard(r, b.(inside := map c | c in b.inside :: k), k);
  }

  /** Two boards with the same cells on each side, the same outside
      colours and a region painted k throughout are the same board. */
  lemma SameShapeSameBoard(b1: Board, b2: Board, k: WaterColor)
    requires b1.size == b2.size && b1.outside == b2.outside && b1.inside.Keys == b2.inside.Keys
    requires forall c :: c in b1.inside ==> b1.inside[c] == k
    requires forall c :: c in b2.inside ==> b2.inside[c] == k
    ensures b1 == b2
  {
    assert b1.inside == b2.inside;
  }

}
