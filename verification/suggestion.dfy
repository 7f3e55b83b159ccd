/**
 The move hint. One row-major scan over the region, like the flood scan
 but with the bound fixed because nothing changes, counts for every region
 tile each outside neighbour by colour, and after every count keeps the
 colour that strictly leads, if one does. The counts start at zero on each
 call.
 */
module Suggestion {

  import opened Geometry
  import opened Tiles
  import opened Boards

  /** One counter per colour. */
  datatype Tally = Tally(blue: nat, cyan: nat, pink: nat, red: nat, yellow: nat)
  {
    function Count(k: WaterColor): nat {
      match k
      case Blue => blue
      case Cyan => cyan
      case Pink => pink
      case Red => red
      case Yellow => yellow
    }

    /** Counts one more tile of colour k. */
    function Add(k: WaterColor): (t: Tally)
      ensures t.Count(k) == Count(k) + 1
      ensures forall j :: j != k ==> t.Count(j) == Count(j)
    {
      match k
      case Blue => this.(blue := blue + 1)
      case Cyan => this.(cyan := cyan + 1)
      case Pink => this.(pink := pink + 1)
      case Red => this.(red := red + 1)
      case Yellow => this.(yellow := yellow + 1)
    }
  }

  const Zero := Tally(0, 0, 0, 0, 0)

  /** Colour k has a strictly larger count than every other colour. */
  ghost predicate Leads(t: Tally, k: WaterColor) {
    forall j :: j != k ==> t.Count(j) < t.Count(k)
  }

  /** Leading, spelled out on the five counters. */
  lemma LeadsByFields(t: Tally)
    ensures Leads(t, Blue) <==> t.blue > t.cyan && t.blue > t.pink && t.blue > t.red && t.blue > t.yellow
    ensures Leads(t, Cyan) <==> t.cyan > t.blue && t.cyan > t.pink && t.cyan > t.red && t.cyan > t.yellow
    ensures Leads(t, Pink) <==> t.pink > t.blue && t.pink > t.cyan && t.pink > t.red && t.pink > t.yellow
    ensures Leads(t, Red) <==> t.red > t.blue && t.red > t.cyan && t.red > t.pink && t.red > t.yellow
    ensures Leads(t, Yellow) <==> t.yellow > t.blue && t.yellow > t.cyan && t.yellow > t.pink && t.yellow > t.red
  {
    assert t.Count(Blue) == t.blue && t.Count(Cyan) == t.cyan && t.Count(Pink) == t.pink;
    assert t.Count(Red) == t.red && t.Count(Yellow) == t.yellow;
  }

  /** The five tests of `Board.suggest`, in its order: each colour that beats
      all four others replaces the current choice s. */
  function Pick(t: Tally, s: WaterColor): (r: WaterColor)
    ensures forall k :: Leads(t, k) ==> r == k
    ensures r == s || Leads(t, r)
  {
    LeadsByFields(t);
    var s1 := if t.blue > t.cyan && t.blue > t.pink && t.blue > t.red && t.blue > t.yellow then Blue else s;
    var s2 := if t.cyan > t.pink && t.cyan > t.red && t.cyan > t.yellow && t.cyan > t.blue then Cyan else s1;
    var s3 := if t.pink > t.red && t.pink > t.yellow && t.pink > t.blue && t.pink > t.cyan then Pink else s2;
    var s4 := if t.red > t.yellow && t.red > t.blue && t.red > t.cyan && t.red > t.pink then Red else s3;
    if t.yellow > t.blue && t.yellow > t.cyan && t.yellow > t.pink && t.yellow > t.red then Yellow else s4
  }

  /** The scan's running state: the counts so far and the current choice. */
  datatype Hint = Hint(tally: Tally, choice: WaterColor)

  const Start := Hint(Zero, Blue)

  /** The choice is the leader whenever there is one. */
  ghost predicate Settled(h: Hint) {
    forall k :: Leads(h.tally, k) ==> h.choice == k
  }

  /** The choice is the initial blue or a colour that has been counted. */
  predicate Counted(h: Hint) {
    h.choice == Blue || h.tally.Count(h.choice) > 0
  }

  /** Counts only grow. */
  ghost predicate Grows(h: Hint, r: Hint) {
    forall k :: r.tally.Count(k) >= h.tally.Count(k)
  }

  /** Counts the outside tiles among ns, re-picking after each. */
  function TallyNeighbors(b: Board, ns: seq<Coord>, h: Hint): (r: Hint)
    ensures Grows(h, r)
    ensures Settled(h) ==> Settled(r)
    ensures Counted(h) ==> Counted(r)
    decreases |ns|
  {
    if ns == [] then h
    else if ns[0] in b.outside then
      var t := h.tally.Add(b.outside[ns[0]]);
      TallyNeighbors(b, ns[1..], Hint(t, Pick(t, h.choice)))
    else
      TallyNeighbors(b, ns[1..], h)
  }

  /** The inner loop over row y, from column x up to the fixed bound n. */
  function SuggestRow(b: Board, n: nat, x: nat, y: nat, h: Hint): (r: Hint)
    ensures Grows(h, r)
    ensures Settled(h) ==> Settled(r)
    ensures Counted(h) ==> Counted(r)
    decreases n - x
  {
    if x >= n then h
    else
      var p := Coord(x, y);
      SuggestRow(b, n, x + 1, y, if p in b.inside then TallyNeighbors(b, Neighbors(p, b.size), h) else h)
  }

  /** The outer loop over rows y up to the fixed bound n. */
  function SuggestRows(b: Board, n: nat, y: nat, h: Hint): (r: Hint)
    ensures Grows(h, r)
    ensures Settled(h) ==> Settled(r)
    ensures Counted(h) ==> Counted(r)
    decreases n - y
  {
    if y >= n then h
    else SuggestRows(b, n, y + 1, SuggestRow(b, n, 0, y, h))
  }

  /** The counts at the end of a call. */
  function FinalTally(b: Board): Tally {
    SuggestRows(b, |b.inside|, 0, Start).tally
  }

  /** The suggested colour: the colour that strictly led after the last
      count that produced a leader, blue if none ever did. */
  function Suggest(b: Board): (r: WaterColor)
    ensures forall k :: Leads(FinalTally(b), k) ==> r == k
    ensures r == Blue || FinalTally(b).Count(r) > 0
  {
    SuggestRows(b, |b.inside|, 0, Start).choice
  }

  /** Tile c is an outside neighbour of d with colour k. */
  ghost predicate Contact(b: Board, k: WaterColor, d: Coord, c: Coord) {
    c in b.outside && b.outside[c] == k && c in Neighbors(d, b.size)
  }

  /** Row-major position d comes before (x, y). */
  predicate Before(d: Coord, x: int, y: int) {
    d.y < y || (d.y == y && d.x < x)
  }

  /** The contacts of colour k: pairs of a region tile and an outside
      neighbour of that colour. */
  ghost function Contacts(b: Board, k: WaterColor): set<(Coord, Coord)> {
    set d, c | d in b.inside && c in b.outside && Contact(b, k, d, c) :: (d, c)
  }

  /** The contacts whose region tile comes before (x, y). */
  ghost function ContactsBefore(b: Board, k: WaterColor, x: int, y: int): set<(Coord, Coord)> {
    set d, c | d in b.inside && c in b.outside && Before(d, x, y) && Contact(b, k, d, c) :: (d, c)
  }

  /** The outside tiles of colour k among ns. */
  ghost function Touching(b: Board, k: WaterColor, ns: seq<Coord>): set<Coord> {
    set c | c in ns && c in b.outside && b.outside[c] == k
  }

  /** The contacts of the single tile p. */
  ghost function ContactsAt(b: Board, k: WaterColor, p: Coord): set<(Coord, Coord)> {
    set c | c in Touching(b, k, Neighbors(p, b.size)) :: (p, c)
  }

  /** Dropping the head of a list without repeats drops at most that one
      tile from the touching set. */
  lemma TouchingTail(b: Board, k: WaterColor, ns: seq<Coord>)
    requires ns != [] && ns[0] !in ns[1..]
    ensures |Touching(b, k, ns)| ==
      |Touching(b, k, ns[1..])| + if ns[0] in b.outside && b.outside[ns[0]] == k then 1 else 0
  {
    var rest := Touching(b, k, ns[1..]);
    if ns[0] in b.outside && b.outside[ns[0]] == k {
      assert Touching(b, k, ns) == rest + {ns[0]};
    } else {
      assert Touching(b, k, ns) == rest;
    }
  }

  /** Counting along a list without repeats adds one for each outside
      tile of colour k in it. */
  lemma {:induction false} TallyNeighborsCount(b: Board, ns: seq<Coord>, h: Hint, k: WaterColor)
    requires forall i, j :: 0 <= i < j < |ns| ==> ns[i] != ns[j]
    ensures TallyNeighbors(b, ns, h).tally.Count(k) == h.tally.Count(k) + |Touching(b, k, ns)|
    decreases |ns|
  {
    if ns != [] {
      var h' := if ns[0] in b.outside then
                  var t := h.tally.Add(b.outside[ns[0]]); Hint(t, Pick(t, h.choice))
                else h;
      TallyNeighborsCount(b, ns[1..], h', k);
      assert ns[0] !in ns[1..];
      TouchingTail(b, k, ns);
    }
  }

  /** Pairing every element of a set with one fixed coordinate keeps its
      size. */
  lemma {:induction false} PairsCount(d: Coord, s: set<Coord>)
    ensures |set c | c in s :: (d, c)| == |s|
    decreases |s|
  {
    if s != {} {
      var c :| c in s;
      PairsCount(d, s - {c});
      assert (set e | e in s :: (d, e)) == (set e | e in s - {c} :: (d, e)) + {(d, c)};
    }
  }

  /** Passing a region tile p = (x, y) adds exactly its own contacts. */
  lemma ContactsSplit(b: Board, k: WaterColor, x: int, y: int)
    requires Coord(x, y) in b.inside
    ensures ContactsBefore(b, k, x + 1, y) == ContactsBefore(b, k, x, y) + ContactsAt(b, k, Coord(x, y))
  {
    var p := Coord(x, y);
    forall e | e in ContactsBefore(b, k, x + 1, y)
      ensures e in ContactsBefore(b, k, x, y) + ContactsAt(b, k, p)
    {
      var d, c :| d in b.inside && c in b.outside && Before(d, x + 1, y) && Contact(b, k, d, c) && e == (d, c);
      if d == p {
        assert c in Touching(b, k, Neighbors(p, b.size));
      }
    }
    forall e | e in ContactsAt(b, k, p) ensures e in ContactsBefore(b, k, x + 1, y) {
      var c :| c in Touching(b, k, Neighbors(p, b.size)) && e == (p, c);
    }
  }

  /** The contacts of the tile at (x, y) are not among those before it. */
  lemma ContactsAtIsNew(b: Board, k: WaterColor, x: int, y: int)
    ensures ContactsBefore(b, k, x, y) !! ContactsAt(b, k, Coord(x, y))
  {
    forall e | e in ContactsAt(b, k, Coord(x, y)) ensures e !in ContactsBefore(b, k, x, y) {
    }
  }

  /** Passing a tile outside the region adds nothing. */
  lemma ContactsSkip(b: Board, k: WaterColor, x: int, y: int)
    requires Coord(x, y) !in b.inside
    ensures ContactsBefore(b, k, x + 1, y) == ContactsBefore(b, k, x, y)
  {
    forall e | e in ContactsBefore(b, k, x + 1, y) ensures e in ContactsBefore(b, k, x, y) {
      var d, c :| d in b.inside && c in b.outside && Before(d, x + 1, y) && Contact(b, k, d, c) && e == (d, c);
    }
  }

  /** Passing position (x, y) adds the contacts of the tile there, if it
      is in the region. */
  lemma ContactsStep(b: Board, k: WaterColor, x: int, y: int)
    ensures |ContactsBefore(b, k, x + 1, y)| == |ContactsBefore(b, k, x, y)| +
      if Coord(x, y) in b.inside then |Touching(b, k, Neighbors(Coord(x, y), b.size))| else 0
  {
    var p := Coord(x, y);
    if p in b.inside {
      ContactsSplit(b, k, x, y);
      ContactsAtIsNew(b, k, x, y);
      PairsCount(p, Touching(b, k, Neighbors(p, b.size)));
    } else {
      ContactsSkip(b, k, x, y);
    }
  }

  /** The row scan counts exactly the contacts of the region tiles it
      passes. */
  lemma {:induction false} SuggestRowCount(b: Board, n: nat, x: nat, y: nat, h: Hint, k: WaterColor)
    requires x <= n
    requires h.tally.Count(k) == |ContactsBefore(b, k, x, y)|
    ensures SuggestRow(b, n, x, y, h).tally.Count(k) == |ContactsBefore(b, k, n, y)|
    decreases n - x
  {
    if x < n {
      var p := Coord(x, y);
      var h' := if p in b.inside then TallyNeighbors(b, Neighbors(p, b.size), h) else h;
      if p in b.inside {
        NeighborsOrdered(p, b.size);
        TallyNeighborsCount(b, Neighbors(p, b.size), h, k);
      }
      ContactsStep(b, k, x, y);
      SuggestRowCount(b, n, x + 1, y, h', k);
    }
  }

  /** On a well-formed board every region tile lies in the square the
      scan covers. */
  lemma RegionInSquare(b: Board)
    requires WellFormed(b)
    ensures forall d :: d in b.inside ==> 0 <= d.x < |b.inside| && 0 <= d.y < |b.inside|
  {
    forall d | d in b.inside ensures 0 <= d.x < |b.inside| && 0 <= d.y < |b.inside| {
      assert InGrid(d, b.size);
    }
  }

  /** Once past the last column of row y, the scan has passed every
      region tile before row y + 1. */
  lemma ContactsRowEnd(b: Board, k: WaterColor, n: int, y: int)
    requires forall d :: d in b.inside ==> d.x < n
    ensures ContactsBefore(b, k, n, y) == ContactsBefore(b, k, 0, y + 1)
  {
    forall e | e in ContactsBefore(b, k, 0, y + 1) ensures e in ContactsBefore(b, k, n, y) {
      var d, c :| d in b.inside && c in b.outside && Before(d, 0, y + 1) && Contact(b, k, d, c) && e == (d, c);
    }
  }

  /** Once past the last row, the scan has passed every region tile. */
  lemma ContactsAllRows(b: Board, k: WaterColor, n: int)
    requires forall d :: d in b.inside ==> d.y < n
    ensures ContactsBefore(b, k, 0, n) == Contacts(b, k)
  {
    forall e | e in Contacts(b, k) ensures e in ContactsBefore(b, k, 0, n) {
      var d, c :| d in b.inside && c in b.outside && Contact(b, k, d, c) && e == (d, c);
    }
  }

  /** The full scan counts exactly the contacts of the region tiles in
      the rows it covers. */
  lemma {:induction false} SuggestRowsCount(b: Board, y: nat, h: Hint, k: WaterColor)
    requires forall d :: d in b.inside ==> 0 <= d.x < |b.inside| && 0 <= d.y < |b.inside|
    requires h.tally.Count(k) == |ContactsBefore(b, k, 0, y)|
    ensures SuggestRows(b, |b.inside|, y, h).tally.Count(k) == |Contacts(b, k)|
    decreases |b.inside| - y
  {
    var n := |b.inside|;
    if y < n {
      var h' := SuggestRow(b, n, 0, y, h);
      SuggestRowCount(b, n, 0, y, h, k);
      ContactsRowEnd(b, k, n, y);
      SuggestRowsCount(b, y + 1, h', k);
    } else {
      ContactsAllRows(b, k, y);
    }
  }

  /** Each final count is the number of contacts of that colour. */
  lemma FinalTallyCountsContacts(b: Board, k: WaterColor)
    requires WellFormed(b)
    ensures FinalTally(b).Count(k) == |Contacts(b, k)|
  {
    assert ContactsBefore(b, k, 0, 0) == {};
    RegionInSquare(b);
    SuggestRowsCount(b, 0, Start, k);
  }

  /** So the hint is the colour with strictly the most contacts whenever
      there is one, and otherwise blue or a colour with some contact. */
  lemma SuggestMostContacts(b: Board, k: WaterColor)
    requires WellFormed(b)
    requires forall j :: j != k ==> |Contacts(b, j)| < |Contacts(b, k)|
    ensures Suggest(b) == k
  {
    forall j ensures FinalTally(b).Count(j) == |Contacts(b, j)| {
      FinalTallyCountsContacts(b, j);
    }
    assert Leads(FinalTally(b), k);
  }

  /** A colour other than blue is suggested only if it touches the
      region. */
  lemma SuggestTouches(b: Board)
    requires WellFormed(b)
    ensures Suggest(b) == Blue || |Contacts(b, Suggest(b))| > 0
  {
    FinalTallyCountsContacts(b, Suggest(b));
  }

  /** When no outside tile of any colour touches the region, no count ever
      rises and the hint stays blue. */
  lemma SuggestWithoutContacts(b: Board)
    requires WellFormed(b)
    requires forall j :: Contacts(b, j) == {}
    ensures Suggest(b) == Blue
  {
    FinalTallyCountsContacts(b, Suggest(b));
  }

  /** With nothing outside, for instance on a won board, the hint is blue. */
  lemma SuggestWithNothingOutside(b: Board)
    requires WellFormed(b) && FullyFlooded(b)
    ensures Suggest(b) == Blue
  {
    forall j ensures Contacts(b, j) == {} {
    }
    SuggestWithoutContacts(b);
  }

}
