/** Fixed-width words as the C sources use them, and the circular order on 32-bit
    sequence numbers and millisecond clocks. */
module Words {

  type byte = x: int | 0 <= x < 256
  type u16 = x: int | 0 <= x < 0x1_0000
  type u32 = x: int | 0 <= x < 0x1_0000_0000
  type bytes = seq<byte>

  const TWO31: int := 0x8000_0000
  const TWO32: int := 0x1_0000_0000

  /** The value left in an `IUINT32` by an unsigned computation. */
  function Wrap(x: int): u32 {
    x % 0x1_0000_0000
  }

  /** The value left in an `IINT32` by a two's-complement computation. */
  function Signed32(x: int): int {
    if Wrap(x) < TWO31 then Wrap(x) else Wrap(x) - TWO32
  }

  /** C division truncates toward zero; the divisor is a positive constant. */
  function TruncDiv(x: int, d: int): int
    requires d > 0
  {
    if x >= 0 then x / d else -((-x) / d)
  }

  function Min(a: int, b: int): int { if a <= b then a else b }

  function Max(a: int, b: int): int { if a >= b then a else b }

  /** How many steps forward, around the 32-bit circle, lead from `a` to `b`. */
  function Dist(a: u32, b: u32): u32 {
    Wrap(b - a)
  }

  /** `_itimediff`: the signed 32-bit difference of two wrapping words. */
  function TimeDiff(later: u32, earlier: u32): int {
    Signed32(later - earlier)
  }

  /** The circular comparison agrees with the comparison of the unwrapped numbers
      exactly while their distance fits in a signed word. */
  lemma TimeDiffIsExactWithinHalf(a: int, b: int)
    ensures TimeDiff(Wrap(a), Wrap(b)) == a - b <==> -TWO31 <= a - b < TWO31
  {
    WrapOfDifference(a, b);
  }

  lemma WrapOfDifference(a: int, b: int)
    ensures Wrap(Wrap(a) - Wrap(b)) == Wrap(a - b)
  {
  }

  lemma WrapSmall(x: int)
    requires 0 <= x < TWO32
    ensures Wrap(x) == x
  {
  }

  lemma SignedSmall(x: int)
    requires -TWO31 <= x < TWO31
    ensures Signed32(x) == x
  {
  }

  /** `TimeDiff` read off the forward distance. */
  lemma TimeDiffByDist(a: u32, b: u32)
    ensures TimeDiff(a, b) == if Dist(b, a) < TWO31 then Dist(b, a) else Dist(b, a) - TWO32
  {
  }

  /** Moving the origin of the circle forward by `Dist(a, b)` shortens every distance
      that reached at least that far. */
  lemma DistRebase(a: u32, b: u32, c: u32)
    requires Dist(a, b) <= Dist(a, c)
    ensures Dist(b, c) == Dist(a, c) - Dist(a, b)
  {
  }

  lemma DistSum(a: u32, b: u32, c: u32)
    requires Dist(a, b) + Dist(b, c) < TWO32
    ensures Dist(a, c) == Dist(a, b) + Dist(b, c)
  {
  }

  lemma DistForward(a: u32, n: u32)
    ensures Dist(a, Wrap(a + n)) == n
  {
  }

  /** For two points within half a circle of a common origin, the circular comparison
      is the comparison of their distances from that origin. */
  lemma TimeDiffFromOrigin(o: u32, a: u32, b: u32)
    requires Dist(o, a) < TWO31 && Dist(o, b) < TWO31
    ensures TimeDiff(a, b) == Dist(o, a) - Dist(o, b)
  {
  }

  // ----- positions of an unbounded stream, and the words that stand for them

  /** The last position up to `n` whose 32-bit number is `w`. */
  function Back(n: int, w: u32): int {
    n - Dist(w, Wrap(n))
  }

  /** The first position from `m` on whose 32-bit number is `w`. */
  function Ahead(m: int, w: u32): int {
    m + Dist(Wrap(m), w)
  }

  lemma BackWord(n: int, w: u32)
    ensures Wrap(Back(n, w)) == w && n - TWO32 < Back(n, w) <= n
  {
  }

  lemma AheadWord(m: int, w: u32)
    ensures Wrap(Ahead(m, w)) == w && m <= Ahead(m, w) < m + TWO32
  {
  }

  lemma BackIs(n: int, i: int)
    requires n - TWO32 < i <= n
    ensures Back(n, Wrap(i)) == i
  {
  }

  lemma AheadIs(m: int, i: int)
    requires m <= i < m + TWO32
    ensures Ahead(m, Wrap(i)) == i
  {
  }

  /** A word stands for the same position as long as that position stays in reach. */
  lemma BackMoves(n: int, n': int, w: u32)
    requires n' - TWO32 < Back(n, w) <= n'
    ensures Back(n', w) == Back(n, w)
  {
    hide Back, Wrap;
    BackWord(n, w);
    BackIs(n', Back(n, w));
  }

  lemma AheadMoves(m: int, m': int, w: u32)
    requires m' <= Ahead(m, w) < m' + TWO32
    ensures Ahead(m', w) == Ahead(m, w)
  {
    hide Ahead, Wrap;
    AheadWord(m, w);
    AheadIs(m', Ahead(m, w));
  }
}
