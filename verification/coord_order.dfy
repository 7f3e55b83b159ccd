/**
 Equality, ordering and hashing of coordinates, with Java's 32-bit `int`
 arithmetic written out: the subtraction in the comparison wraps around,
 and the hash is computed on 32-bit words.
 */
module CoordOrder {

  import opened Geometry

  const Modulus: int := 0x1_0000_0000
  const Half: int := 0x8000_0000

  /** Reduces an integer to the 32-bit two's-complement range, as Java's
      `int` arithmetic does. */
  function Wrap32(v: int): (r: int)
    ensures -Half <= r < Half
    ensures -Half <= v < Half ==> r == v
  {
    (v + Half) % Modulus - Half
  }

  /** Two coordinates are equal iff both components match. */
  function Equals(a: Coord, b: Coord): (r: bool)
    ensures r <==> a == b
  {
    a.x == b.x && a.y == b.y
  }

  /** Orders first on x, then on y, by subtracting components with Java's
      wrapping `int` subtraction. For non-negative coordinates nothing
      wraps, and the sign is the x-then-y order. */
  function CompareTo(a: Coord, b: Coord): (r: int)
    ensures -Half <= r < Half
    ensures Natural32(a) && Natural32(b) ==>
      && (r < 0 <==> Precedes(a, b))
      && (r > 0 <==> Precedes(b, a))
      && (r == 0 <==> a == b)
  {
    if a.x == b.x then Wrap32(a.y - b.y) else Wrap32(a.x - b.x)
  }

  /** The values a board coordinate can take: a non-negative Java `int`. */
  predicate Natural32(c: Coord) {
    0 <= c.x < Half && 0 <= c.y < Half
  }

  /** x-then-y order on coordinates. */
  predicate Precedes(a: Coord, b: Coord) {
    a.x < b.x || (a.x == b.x && a.y < b.y)
  }

  /** For non-negative coordinates the subtraction cannot wrap, so the sign
      of the comparison is the x-then-y order, zero exactly on equal
      coordinates, and swapping the arguments flips the sign. */
  lemma CompareToIsLexicographic(a: Coord, b: Coord)
    requires Natural32(a) && Natural32(b)
    ensures CompareTo(a, b) < 0 <==> Precedes(a, b)
    ensures CompareTo(a, b) > 0 <==> Precedes(b, a)
    ensures CompareTo(a, b) == 0 <==> Equals(a, b)
    ensures CompareTo(a, b) == -CompareTo(b, a)
  {
  }

  /** Without that bound the subtraction overflows: a coordinate far to
      the left compares as if it were to the right. */
  lemma CompareToWrapsForFarApartCoords()
    ensures Precedes(Coord(-2, 0), Coord(Half - 1, 0))
    ensures CompareTo(Coord(-2, 0), Coord(Half - 1, 0)) > 0
  {
  }

  /** A Java `int` as a 32-bit word. */
  function ToWord(v: int): bv32 {
    (v % Modulus) as bv32
  }

  /** A 32-bit word read back as a signed Java `int`. */
  function FromWord(w: bv32): (r: int)
    ensures -Half <= r < Half
  {
    var v := w as int;
    if v < Half then v else v - Modulus
  }


  /** The packing of `Coord.hashCode`: (x ^ (x << 5)) << 5, plus y ^ (y << 5),
      all on 32-bit words. */
  function HashWord(x: bv32, y: bv32): bv32 {
    ((x ^ (x << 5)) << 5) + (y ^ (y << 5))
  }

  /** The hash is a Java `int`; on the 32-by-32 square it is
      1056 * x + 33 * y. */
  function HashCode(c: Coord): (r: int)
    ensures -Half <= r < Half
    ensures 0 <= c.x < 32 && 0 <= c.y < 32 ==> r == 1056 * c.x + 33 * c.y
  {
    PackSmall(c.x, c.y);
    FromWord(HashWord(ToWord(c.x), ToWord(c.y)))
  }

  /** For a value below 32, v ^ (v << 5) adds two non-overlapping copies
      of v, that is 33 * v, and shifting that by 5 gives 1056 * v. */
  lemma SpreadWord(v: bv32)
    requires v < 32
    ensures v ^ (v << 5) == v * 33
    ensures (v * 33) << 5 == v * 1056
  {
  }

  /** Below 32 in both components the packed word is the positive number
      1056 * x + 33 * y. */
  lemma HashWordSmall(x: bv32, y: bv32)
    requires x < 32 && y < 32
    ensures HashWord(x, y) == x * 1056 + y * 33
    ensures HashWord(x, y) < 0x8000_0000
    ensures HashWord(x, y) as int == (x as int) * 1056 + (y as int) * 33
  {
    SpreadWord(x);
    SpreadWord(y);
    WordSum(x, y);
  }

  lemma WordSum(x: bv32, y: bv32)
    requires x < 32 && y < 32
    ensures x * 1056 + y * 33 < 0x8000_0000
    ensures (x * 1056 + y * 33) as int == (x as int) * 1056 + (y as int) * 33
  {
  }

  /** A small non-negative int is the same number as a word. */
  lemma SmallWord(v: int)
    requires 0 <= v < 32
    ensures ToWord(v) == v as bv32 && (v as bv32) as int == v
  {
    assert v % Modulus == v;
  }

  /** On the 32-by-32 square the packed word read back is
      1056 * x + 33 * y. */
  lemma PackSmall(x: int, y: int)
    ensures 0 <= x < 32 && 0 <= y < 32 ==> FromWord(HashWord(ToWord(x), ToWord(y))) == 1056 * x + 33 * y
  {
    if 0 <= x < 32 && 0 <= y < 32 {
      SmallWord(x);
      SmallWord(y);
      HashWordSmall(x as bv32, y as bv32);
    }
  }

  /** The worked examples: x steps by 1056 and y by 33. */
  lemma HashCodeExamples()
    ensures HashCode(Coord(5, 5)) == 5445
    ensures HashCode(Coord(6, 5)) == 6501
    ensures HashCode(Coord(5, 6)) == 5478
  {
  }

  /** Distinct coordinates in the 32-by-32 square hash differently. */
  lemma HashCodeInjective(a: Coord, b: Coord)
    requires 0 <= a.x < 32 && 0 <= a.y < 32
    requires 0 <= b.x < 32 && 0 <= b.y < 32
    ensures HashCode(a) == HashCode(b) <==> a == b
  {
    assert HashCode(a) == 1056 * a.x + 33 * a.y;
    assert HashCode(b) == 1056 * b.x + 33 * b.y;
  }

}
