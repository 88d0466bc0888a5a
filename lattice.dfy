// The point lattice of the Mandelbulb page: three nested loops, x outermost
// and z innermost, each walking lo, lo + step, ... while its coordinate stays
// below lo + step * n, pushing (x, y, z) onto one flat vertex list.

module Lattice {

  /** The value a loop `for (v = lo; ...; v += step)` holds in its round k (from 0). */
  function Coord(lo: int, step: int, k: int): int
  {
    lo + step * k
  }

  /** Entry t of the vertex list: coordinate t % 3 (x, y or z) of point t / 3, where
      point p is visited in outer round p / n^2, middle round (p / n) % n and inner
      round p % n. */
  function Entry(lo: int, step: int, n: nat, t: int): int
    requires n > 0
  {
    var p := t / 3;
    var round := if t % 3 == 0 then p / (n * n) else if t % 3 == 1 then (p / n) % n else p % n;
    Coord(lo, step, round)
  }

  /** The vertex list the loop nest builds: n^3 points, three entries each. */
  function Grid(lo: int, step: int, n: nat): seq<int>
  {
    if n == 0 then [] else seq(3 * (n * n * n), t => Entry(lo, step, n, t))
  }

  // ---------------------------------------------------------------------------
  // Arithmetic helpers (each one small, so that no proof has to do nonlinear
  // arithmetic on its own)

  lemma StepMonotone(lo: int, step: int, i: int, n: int)
    requires step > 0
    ensures lo + step * i < lo + step * n <==> i < n
  {
  }

  lemma StepNext(lo: int, step: int, i: int)
    ensures lo + step * (i + 1) == lo + step * i + step
  {
  }

  lemma MulAtLeast(x: int, d: int)
    requires x >= 1 && d > 0
    ensures x * d >= d
  {
  }

  lemma MulSub(x: int, y: int, d: int)
    ensures (x - y) * d == x * d - y * d
  {
  }

  lemma MulSucc(x: int, d: int)
    ensures (x + 1) * d == x * d + d
  {
  }

  lemma MulAdd(x: int, y: int, d: int)
    ensures (x + y) * d == x * d + y * d
  {
  }

  lemma Assoc(x: int, y: int, z: int)
    ensures (x * y) * z == x * (y * z)
  {
  }

  /** Flat index bound: i < a and q < m put i * m + q below a * m. */
  lemma RowMajorBound(i: nat, q: nat, a: nat, m: nat)
    requires i < a && q < m
    ensures i * m + q < a * m
  {
    MulSub(a, i, m);
    MulAtLeast(a - i, m);
  }

  /** Quotient and remainder are fixed by any a == q * d + r with 0 <= r < d. */
  lemma DivModUnique(a: int, d: int, q: int, r: int)
    requires d > 0 && 0 <= r < d && a == q * d + r
    ensures a / d == q && a % d == r
  {
    var q', r' := a / d, a % d;
    assert a == q' * d + r';
    if q' < q {
      MulSub(q, q', d);
      MulAtLeast(q - q', d);
    } else if q < q' {
      MulSub(q', q, d);
      MulAtLeast(q' - q, d);
    }
  }

  /** A number below d * b has a quotient by d below b. */
  lemma QuotBound(p: nat, d: nat, b: nat)
    requires d > 0 && p < d * b
    ensures p / d < b
  {
    var q := p / d;
    assert p == q * d + p % d;
    if q >= b {
      MulSub(q, b, d);
    }
  }

  /** The point number p == i * n^2 + j * n + k of rounds i, j, k < n gives back
      those rounds as p / n^2, (p / n) % n and p % n. */
  lemma RoundsOf(n: nat, i: nat, j: nat, k: nat)
    requires i < n && j < n && k < n
    ensures var p := i * (n * n) + j * n + k;
      p / (n * n) == i && (p / n) % n == j && p % n == k
  {
    var p := i * (n * n) + j * n + k;
    RowMajorBound(j, k, n, n);
    DivModUnique(p, n * n, i, j * n + k);
    Assoc(i, n, n);
    MulAdd(i * n, j, n);
    DivModUnique(p, n, i * n + j, k);
    DivModUnique(i * n + j, n, i, j);
  }

  /** Entries 3p, 3p + 1 and 3p + 2 are the x, y and z of point p. */
  lemma EntryOfPoint(lo: int, step: int, n: nat, p: int)
    requires n > 0
    ensures Entry(lo, step, n, 3 * p) == Coord(lo, step, p / (n * n))
    ensures Entry(lo, step, n, 3 * p + 1) == Coord(lo, step, (p / n) % n)
    ensures Entry(lo, step, n, 3 * p + 2) == Coord(lo, step, p % n)
  {
    DivModUnique(3 * p, 3, p, 0);
    DivModUnique(3 * p + 1, 3, p, 1);
    DivModUnique(3 * p + 2, 3, p, 2);
  }

  /** The rounds of point p < n^3 are all below n. */
  lemma RoundsBelow(n: nat, p: nat)
    requires p < n * n * n
    ensures n > 0 && p / (n * n) < n && (p / n) % n < n && p % n < n
  {
    QuotBound(p, n * n, n);
  }

  // ---------------------------------------------------------------------------
  // Properties of the vertex list

  /** The closed form of the loop nest: point p (entries 3p .. 3p+2) is
      (lo + step * (p / n^2), lo + step * ((p / n) % n), lo + step * (p % n)). */
  lemma GridPoint(lo: int, step: int, n: nat, p: nat)
    requires p < n * n * n
    ensures |Grid(lo, step, n)| == 3 * (n * n * n)
    ensures Grid(lo, step, n)[3 * p] == lo + step * (p / (n * n))
    ensures Grid(lo, step, n)[3 * p + 1] == lo + step * ((p / n) % n)
    ensures Grid(lo, step, n)[3 * p + 2] == lo + step * (p % n)
  {
    RoundsBelow(n, p);
    EntryOfPoint(lo, step, n, p);
  }

  /** Round r < n of a loop from lo in steps of step lies in [lo, lo + step * n)
      and a whole number of steps away from lo. */
  lemma CoordInRange(lo: int, step: int, r: nat, n: nat)
    requires step > 0 && r < n
    ensures lo <= Coord(lo, step, r) < lo + step * n
    ensures (Coord(lo, step, r) - lo) % step == 0
  {
    StepMonotone(lo, step, r, n);
    DivModUnique(step * r, step, r, 0);
  }

  /** Every entry of Grid(lo, step, n) is a value the loops visit: within
      [lo, lo + step * n) and a whole number of steps away from lo. */
  lemma GridEntries(lo: int, step: int, n: nat, t: nat)
    requires step > 0 && t < |Grid(lo, step, n)|
    ensures lo <= Grid(lo, step, n)[t] < lo + step * n
    ensures (Grid(lo, step, n)[t] - lo) % step == 0
  {
    assert n > 0;
    var p := t / 3;
    RoundsBelow(n, p);
    var round := if t % 3 == 0 then p / (n * n) else if t % 3 == 1 then (p / n) % n else p % n;
    assert Grid(lo, step, n)[t] == Coord(lo, step, round);
    CoordInRange(lo, step, round, n);
  }

  /** The page's instance, lo = -50, step = 2, n = 50: 375000 entries, so a draw
      count of 125000 points; every coordinate is even and within [-50, 50); the
      first point is (-50, -50, -50) and the last (48, 48, 48). */
  lemma PageLattice()
    ensures |Grid(-50, 2, 50)| == 375000 && |Grid(-50, 2, 50)| / 3 == 125000
    ensures forall t :: 0 <= t < |Grid(-50, 2, 50)| ==>
      -50 <= Grid(-50, 2, 50)[t] < 50 && Grid(-50, 2, 50)[t] % 2 == 0
    ensures Grid(-50, 2, 50)[..3] == [-50, -50, -50]
    ensures Grid(-50, 2, 50)[374997..] == [48, 48, 48]
  {
    var g := Grid(-50, 2, 50);
    forall t | 0 <= t < |g|
      ensures -50 <= g[t] < 50 && g[t] % 2 == 0
    {
      GridEntries(-50, 2, 50, t);
    }
    GridPoint(-50, 2, 50, 0);
    GridPoint(-50, 2, 50, 124999);
  }

  // ---------------------------------------------------------------------------
  // The generator, as the source writes it

  /** Builds the vertex list with three nested loops over the coordinate values,
      each running while its coordinate is below lo + step * n. */
  method Generate(lo: int, step: int, n: nat) returns (vertices: seq<int>)
    requires step > 0
    ensures vertices == Grid(lo, step, n)
  {
    var hi := lo + step * n;
    vertices := [];
    var x := lo;
    ghost var i, points := 0, 0;
    while x < hi
      invariant 0 <= i <= n && x == Coord(lo, step, i)
      invariant points == i * (n * n) && |vertices| == 3 * points
      invariant forall t :: 0 <= t < |vertices| ==> vertices[t] == Entry(lo, step, n, t)
      decreases hi - x
    {
      StepMonotone(lo, step, i, n);
      StepNext(lo, step, i);
      var y := lo;
      ghost var j := 0;
      while y < hi
        invariant 0 <= j <= n && y == Coord(lo, step, j)
        invariant points == i * (n * n) + j * n && |vertices| == 3 * points
        invariant forall t :: 0 <= t < |vertices| ==> vertices[t] == Entry(lo, step, n, t)
        decreases hi - y
      {
        StepMonotone(lo, step, j, n);
        StepNext(lo, step, j);
        var z := lo;
        ghost var k := 0;
        while z < hi
          invariant 0 <= k <= n && z == Coord(lo, step, k)
          invariant points == i * (n * n) + j * n + k && |vertices| == 3 * points
          invariant forall t :: 0 <= t < |vertices| ==> vertices[t] == Entry(lo, step, n, t)
          decreases hi - z
        {
          StepMonotone(lo, step, k, n);
          StepNext(lo, step, k);
          RoundsOf(n, i, j, k);
          EntryOfPoint(lo, step, n, points);
          vertices := vertices + [x, y, z];
          z, k, points := z + step, k + 1, points + 1;
        }
        StepMonotone(lo, step, k, n);
        MulSucc(j, n);
        y, j := y + step, j + 1;
      }
      StepMonotone(lo, step, j, n);
      MulSucc(i, n * n);
      x, i := x + step, i + 1;
    }
    StepMonotone(lo, step, i, n);
    Assoc(n, n, n);
    if n > 0 {
      assert |vertices| == |Grid(lo, step, n)|;
    }
  }
}
