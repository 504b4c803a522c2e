/** The real-analysis functions the Python scripts take from numpy and `math`
    (`sin`, `cos`, `arctan`, `sqrt`, the constant pi), and Python's `round`.
    The transcendental functions are carried as function-valued fields of a record;
    `Lawful` states the only facts about them the model relies on. */
module Analysis {

  datatype Analysis = Analysis(
    sin: real -> real,
    cos: real -> real,
    arctan: real -> real,
    sqrt: real -> real,
    pi: real)

  /** The angle the georeferencing code actually rotates by: the map conversion's
      rotation minus a quarter turn (`rotation - np.pi / 2`). */
  function CalibratedRotation(m: Analysis, rotation: real): real {
    rotation - m.pi / 2.0
  }

  /** The laws of sine, cosine, arctangent and square root that the model uses. */
  ghost predicate Lawful(m: Analysis) {
    && m.pi > 0.0
    && (forall t :: m.sin(t) * m.sin(t) + m.cos(t) * m.cos(t) == 1.0)
    && (forall t {:trigger CalibratedRotation(m, t)} ::
          m.cos(CalibratedRotation(m, t)) == m.sin(t) && m.sin(CalibratedRotation(m, t)) == -m.cos(t))
    && (forall v :: -m.pi / 2.0 < m.arctan(v) < m.pi / 2.0)
    && (forall x :: 0.0 <= x ==> 0.0 <= m.sqrt(x) && m.sqrt(x) * m.sqrt(x) == x)
    && UnitRoot(m)
  }

  /** The square root is the unique non-negative root. */
  lemma SqrtUnique(m: Analysis, x: real, y: real)
    requires Lawful(m)
    requires 0.0 <= y && y * y == x
    ensures m.sqrt(x) == y
  {
    var s := m.sqrt(x);
    assert 0.0 <= s && s * s == y * y;
    assert (s - y) * (s + y) == s * s - y * y;
    ProductZero(s - y, s + y);
  }

  lemma ProductZero(a: real, b: real)
    requires a * b == 0.0
    ensures a == 0.0 || b == 0.0
  {
    if a != 0.0 {
      assert b == (a * b) / a;
    }
  }

  lemma ProductPositive(a: real, b: real)
    requires 0.0 < a && 0.0 < b
    ensures 0.0 < a * b
  {
  }

  /** Multiplying by a positive factor keeps a strict order, in both directions. */
  lemma ScaleStrict(a: real, b: real, c: real)
    requires 0.0 < c
    ensures a < b <==> a * c < b * c
  {
    assert b * c - a * c == (b - a) * c;
    if a < b {
      ProductPositive(b - a, c);
    } else if b < a {
      ProductPositive(a - b, c);
    }
  }

  /** On non-negative numbers squaring keeps a strict order, in both directions. */
  lemma SquareStrict(a: real, b: real)
    requires 0.0 <= a && 0.0 <= b
    ensures a < b <==> a * a < b * b
  {
    assert b * b - a * a == (b - a) * (b + a);
    if a < b {
      ProductPositive(b - a, b + a);
    } else if b < a {
      ProductPositive(a - b, a + b);
    }
  }

  /** The one fact about the root that fixed unit vectors need. */
  predicate UnitRoot(m: Analysis) {
    m.sqrt(1.0) == 1.0
  }

  /** The root law at one point, for proofs that should not see all of `Lawful`. */
  lemma SqrtAt(m: Analysis, x: real)
    requires Lawful(m) && 0.0 <= x
    ensures 0.0 <= m.sqrt(x) && m.sqrt(x) * m.sqrt(x) == x
  {
  }

  function Pow10(d: nat): (r: real)
    ensures r >= 1.0
  {
    if d == 0 then 1.0 else 10.0 * Pow10(d - 1)
  }

  /** The whole number nearest to `x`, a tie going to the even neighbour: halves are
      rounded up, and a tie that lands on an odd number steps back down. */
  function NearestEven(x: real): (n: int)
    ensures -0.5 <= n as real - x <= 0.5
  {
    var up := (x + 0.5).Floor;
    if up as real == x + 0.5 && up % 2 != 0 then up - 1 else up
  }

  /** `v` counted in units of 10^-d. */
  function Scaled(v: real, d: nat): real {
    v * Pow10(d)
  }

  /** `v` counted in units of 10^-d, rounded to the nearest whole number of units. */
  function RoundedUnits(v: real, d: nat): int {
    NearestEven(Scaled(v, d))
  }

  /** `round(v, d)`: the nearest multiple of 10^-d, halves rounded to even. */
  function Round(v: real, d: nat): (r: real)
    ensures -1.0 / (2.0 * Pow10(d)) <= r - v <= 1.0 / (2.0 * Pow10(d))
  {
    var q := Pow10(d);
    assert Scaled(v, d) == v * q;
    RoundBound(v, q, RoundedUnits(v, d));
    RoundedUnits(v, d) as real / q
  }

  lemma RoundBound(v: real, q: real, n: int)
    requires q >= 1.0 && -0.5 <= n as real - v * q <= 0.5
    ensures -1.0 / (2.0 * q) <= n as real / q - v <= 1.0 / (2.0 * q)
  {
    var e := n as real - v * q;
    assert n as real / q - v == e / q;
  }

  /** Rounding to `d` decimals keeps every value within half a unit of the last place;
      for three decimals that is half a millimetre. */
  lemma RoundToMillimetre(v: real)
    ensures -0.0005 <= Round(v, 3) - v <= 0.0005
  {
    assert Pow10(3) == 1000.0;
  }

  /** Rounding a value that already has at most `d` decimals changes nothing. */
  lemma RoundExact(k: int, d: nat)
    ensures Round(k as real / Pow10(d), d) == k as real / Pow10(d)
  {
    var q := Pow10(d);
    var v := k as real / q;
    assert Scaled(v, d) == k as real;
    NearestEvenIs(Scaled(v, d), k);
  }

  lemma FloorIs(x: real, k: int)
    requires k as real <= x < k as real + 1.0
    ensures x.Floor == k
  {
  }

  /** The nearest whole number to `x` is k exactly when `x` lies within half of k,
      the two ends of that window counting only for an even k. */
  lemma NearestEvenIs(x: real, k: int)
    requires k as real - 0.5 <= x <= k as real + 0.5
    requires x == k as real - 0.5 || x == k as real + 0.5 ==> k % 2 == 0
    ensures NearestEven(x) == k
  {
    if x == k as real + 0.5 {
      FloorIs(x + 0.5, k + 1);
    } else {
      FloorIs(x + 0.5, k);
    }
  }

  /** Rounding lands on k / 10^d whenever `v` lies within half a unit of k units,
      the two ends of that window counting only for an even k. */
  lemma RoundTo(v: real, d: nat, k: int)
    requires k as real - 0.5 <= Scaled(v, d) <= k as real + 0.5
    requires Scaled(v, d) == k as real - 0.5 || Scaled(v, d) == k as real + 0.5 ==> k % 2 == 0
    ensures Round(v, d) == k as real / Pow10(d)
  {
    NearestEvenIs(Scaled(v, d), k);
    RoundOfUnits(v, d, k);
  }

  lemma RoundOfUnits(v: real, d: nat, k: int)
    requires RoundedUnits(v, d) == k
    ensures Round(v, d) == k as real / Pow10(d)
  {
  }

  /** A value exactly halfway between k and k + 1 units goes to the even one of the two. */
  lemma RoundHalfToEven(v: real, d: nat, k: int)
    requires v * Pow10(d) == k as real + 0.5
    ensures Round(v, d) == (if k % 2 == 0 then k else k + 1) as real / Pow10(d)
  {
    var n := if k % 2 == 0 then k else k + 1;
    ScaledIs(v, d, k as real + 0.5);
    NearestEvenOfHalf(Scaled(v, d), k);
    RoundOfUnits(v, d, n);
  }

  lemma ScaledIs(v: real, d: nat, x: real)
    requires v * Pow10(d) == x
    ensures Scaled(v, d) == x
  {
  }

  lemma NearestEvenOfHalf(x: real, k: int)
    requires x == k as real + 0.5
    ensures NearestEven(x) == if k % 2 == 0 then k else k + 1
  {
    FloorIs(x + 0.5, k + 1);
  }

  /** Powers of ten are whole numbers. */
  lemma {:induction false} Pow10Whole(d: nat)
    ensures Pow10(d) == Pow10(d).Floor as real
  {
    if d > 0 {
      Pow10Whole(d - 1);
      var n := Pow10(d - 1).Floor;
      assert Pow10(d) == (10 * n) as real;
      FloorIs(Pow10(d), 10 * n);
    }
  }

  /** Rounding never lifts a value at or below 1 above 1. */
  lemma RoundAtMostOne(v: real, d: nat)
    requires v <= 1.0
    ensures Round(v, d) <= 1.0
  {
    var q := Pow10(d);
    Pow10Whole(d);
    var x := Scaled(v, d);
    assert x <= q by {
      assert (1.0 - v) * q >= 0.0;
    }
    NearestEvenAtMost(x, q.Floor);
    QuotientAtMostOne(RoundedUnits(v, d) as real, q);
  }

  /** The nearest whole number to a value at or below a whole number `w` is at most `w`. */
  lemma NearestEvenAtMost(x: real, w: int)
    requires x <= w as real
    ensures NearestEven(x) <= w
  {
  }

  lemma QuotientAtMostOne(a: real, q: real)
    requires q > 0.0 && a <= q
    ensures a / q <= 1.0
  {
  }

  /** A root is pinned between two bounds by squaring them. */
  lemma SqrtBetween(m: Analysis, x: real, lo: real, hi: real)
    requires Lawful(m)
    requires 0.0 <= lo && 0.0 <= hi && lo * lo <= x < hi * hi
    ensures lo <= m.sqrt(x) < hi
  {
    assert 0.0 <= x by {
      assert 0.0 <= lo * lo;
    }
    SqrtAt(m, x);
    var s := m.sqrt(x);
    SquareStrict(s, lo);
    SquareStrict(s, hi);
  }
}
