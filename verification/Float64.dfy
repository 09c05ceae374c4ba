/** The IEEE 754-2008 binary64 arithmetic that the sync cursor rests on.

    Numbers are integers here: from 2^52 upwards every finite number of the format is one, and the
    FileTimes of our time lie far above. */
module Float64 {
  // `IsFloat64` is the definition by significand and exponent (section 3.3 of IEEE 754-2008);
  // `Round`, `NextUp` and `NextDown` compute from the spacing of the binade, and the lemmas show
  // that they are roundTiesToEven (section 4.3.1) and nextUp / nextDown (section 5.3.1).

  const P52: nat := 0x10_0000_0000_0000
  const P53: nat := 0x20_0000_0000_0000

  function Pow2(e: nat): (p: nat)
    ensures p >= 1
  {
    if e == 0 then 1 else 2 * Pow2(e - 1)
  }

  /** v has significand m, of at most 53 bits, and exponent e. */
  ghost predicate HasForm(v: nat, m: nat, e: nat) {
    m < P53 && v == m * Pow2(e)
  }

  ghost predicate IsFloat64(v: nat) {
    exists m: nat, e: nat :: HasForm(v, m, e)
  }

  /** The distance between neighbouring floats in the binade that holds n (1 below 2^53, where
      every integer is a float). */
  function Ulp(n: nat): (u: nat)
    ensures u >= 1
  {
    if n < P53 then 1 else 2 * Ulp(n / 2)
  }

  function Round(n: nat): nat {
    var u := Ulp(n);
    var q, r := n / u, n % u;
    if 2 * r < u || (2 * r == u && q % 2 == 0) then q * u else (q + 1) * u
  }

  /** The least float above the float v. */
  function NextUp(v: nat): nat { v + Ulp(v) }

  /** The greatest integer-valued float below the float v. */
  function NextDown(v: nat): (w: int)
    requires v > 0
  {
    v - Ulp(v - 1)
  }

  // ---------------------------------------------------------------- arithmetic

  lemma MulMonotone(a: int, b: int, u: nat)
    requires a <= b
    ensures a * u <= b * u
  {
    assert (b - a) * u >= 0;
  }

  lemma QuotientUnique(n: nat, w: nat, q: nat, r: nat)
    requires w > 0 && r < w && n == q * w + r
    ensures n / w == q && n % w == r
  {
    var p := n / w;
    assert (p - q) * w == r - n % w;
    if p != q {
      MulMonotone(1, if p > q then p - q else q - p, w);
      assert false;
    }
  }

  lemma Cells(n: nat, w: nat)
    requires w > 0
    ensures n == n / w * w + n % w && n / w * w <= n < (n / w + 1) * w
    ensures (n / w + 1) * w == n / w * w + w
  {
  }

  lemma MultipleMod(k: nat, w: nat)
    requires w > 0
    ensures (k * w) % w == 0 && k * w / w == k
  {
    QuotientUnique(k * w, w, k, 0);
  }

  lemma DivScale(n: nat, w: nat)
    requires w > 0
    ensures n % (2 * w) == 0 <==> n % 2 == 0 && (n / 2) % w == 0
  {
    if n % (2 * w) == 0 {
      var k := n / (2 * w);
      Cells(n, 2 * w);
      assert k * (2 * w) == 2 * (k * w);
      MultipleMod(k, w);
    }
    if n % 2 == 0 && (n / 2) % w == 0 {
      var k := n / 2 / w;
      Cells(n / 2, w);
      assert k * (2 * w) == 2 * (k * w);
      MultipleMod(k, 2 * w);
    }
  }

  // ---------------------------------------------------------------- binades

  lemma {:induction false} UlpBinade(n: nat) returns (k: nat)
    requires n >= P52
    ensures Ulp(n) == Pow2(k) && P52 * Ulp(n) <= n < P53 * Ulp(n)
  {
    if n < P53 {
      k := 0;
    } else {
      var j := UlpBinade(n / 2);
      k := j + 1;
      assert Pow2(k) == 2 * Pow2(j);
    }
  }

  lemma {:induction false} UlpUnique(n: nat, k: nat)
    requires P52 * Pow2(k) <= n < P53 * Pow2(k)
    ensures Ulp(n) == Pow2(k)
  {
    if k > 0 {
      assert Pow2(k) == 2 * Pow2(k - 1);
      UlpUnique(n / 2, k - 1);
    }
  }

  lemma FloatHalves(n: nat)
    requires n >= P53
    ensures IsFloat64(n) <==> n % 2 == 0 && IsFloat64(n / 2)
  {
    if IsFloat64(n) {
      var m: nat, e: nat :| HasForm(n, m, e);
      assert e > 0;
      assert m * Pow2(e) == 2 * (m * Pow2(e - 1));
      assert HasForm(n / 2, m, e - 1);
    }
    if n % 2 == 0 && IsFloat64(n / 2) {
      var m: nat, e: nat :| HasForm(n / 2, m, e);
      assert m * Pow2(e + 1) == 2 * (m * Pow2(e));
      assert HasForm(n, m, e + 1);
    }
  }

  /** The floats are exactly the multiples of their binade's spacing. */
  lemma {:induction false} FloatIffMultiple(n: nat)
    ensures IsFloat64(n) <==> n % Ulp(n) == 0
  {
    if n < P53 {
      assert HasForm(n, n, 0);
    } else {
      FloatIffMultiple(n / 2);
      DivScale(n, Ulp(n / 2));
      FloatHalves(n);
    }
  }

  /** The significand bounds of the cell that holds n. */
  lemma CellQuotient(n: nat) returns (k: nat)
    requires n >= P52
    ensures Ulp(n) == Pow2(k) && P52 <= n / Ulp(n) < P53
  {
    k := UlpBinade(n);
    var u := Ulp(n);
    var q := n / u;
    Cells(n, u);
    if q < P52 {
      MulMonotone(q + 1, P52, u);
      assert false;
    }
    if q >= P53 {
      MulMonotone(P53, q, u);
      assert false;
    }
  }

  /** q * 2^k with 2^52 <= q <= 2^53 is a float, and which binade it starts or lies in. */
  lemma FloatAt(q: nat, k: nat)
    requires P52 <= q <= P53
    ensures IsFloat64(q * Pow2(k))
    ensures q < P53 ==> Ulp(q * Pow2(k)) == Pow2(k)
    ensures q == P53 ==> Ulp(q * Pow2(k)) == 2 * Pow2(k)
  {
    if q < P53 {
      assert HasForm(q * Pow2(k), q, k);
      MulMonotone(P52, q, Pow2(k));
      MulMonotone(q + 1, P53, Pow2(k));
      assert q * Pow2(k) < (q + 1) * Pow2(k);
      UlpUnique(q * Pow2(k), k);
    } else {
      assert Pow2(k + 1) == 2 * Pow2(k);
      assert q * Pow2(k) == P52 * Pow2(k + 1);
      assert HasForm(q * Pow2(k), P52, k + 1);
      UlpUnique(q * Pow2(k), k + 1);
    }
  }

  /** The lower end of the cell [CellLow(n), CellLow(n) + Ulp(n)) that holds n. */
  ghost function CellLow(n: nat): nat { n / Ulp(n) * Ulp(n) }

  lemma CellHolds(n: nat)
    ensures CellLow(n) <= n < CellLow(n) + Ulp(n) && n - CellLow(n) == n % Ulp(n)
  {
    Cells(n, Ulp(n));
  }

  lemma ScaledBounds(q: nat, u: nat)
    requires P52 <= q < P53
    ensures P52 * u <= q * u && q * u + u <= P53 * u && (q + 1) * u == q * u + u
  {
    MulMonotone(P52, q, u);
    MulMonotone(q + 1, P53, u);
    assert (q + 1) * u == q * u + u;
  }

  lemma CellEnds(n: nat)
    requires n >= P52
    ensures IsFloat64(CellLow(n)) && IsFloat64(CellLow(n) + Ulp(n))
    ensures CellLow(n) >= P52 * Ulp(n) && CellLow(n) + Ulp(n) <= P53 * Ulp(n)
  {
    var k := CellQuotient(n);
    var q := n / Ulp(n);
    ScaledBounds(q, Ulp(n));
    assert IsFloat64(q * Pow2(k)) by { FloatAt(q, k); }
    assert IsFloat64((q + 1) * Pow2(k)) by { FloatAt(q + 1, k); }
  }

  lemma NoFloatInside(n: nat, f: nat)
    requires n >= P52 && CellLow(n) < f < CellLow(n) + Ulp(n)
    ensures !IsFloat64(f)
  {
    var k := CellQuotient(n);
    var u := Ulp(n);
    CellEnds(n);
    UlpUnique(f, k);
    FloatIffMultiple(f);
    QuotientUnique(f, u, n / u, f - CellLow(n));
  }

  /** No float lies strictly inside the cell that holds n, and both ends of the cell are floats. */
  lemma Cell(n: nat)
    ensures IsFloat64(CellLow(n)) && IsFloat64(CellLow(n) + Ulp(n))
    ensures forall f: nat :: IsFloat64(f) && CellLow(n) < f ==> CellLow(n) + Ulp(n) <= f
  {
    if n < P52 {
      assert CellLow(n) == n && Ulp(n) == 1;
      assert HasForm(n, n, 0) && HasForm(n + 1, n + 1, 0);
    } else {
      CellEnds(n);
      forall f: nat | IsFloat64(f) && CellLow(n) < f
        ensures CellLow(n) + Ulp(n) <= f
      {
        if f < CellLow(n) + Ulp(n) {
          NoFloatInside(n, f);
        }
      }
    }
  }

  // ---------------------------------------------------------------- rounding

  ghost function Dist(a: nat, b: nat): nat { if a <= b then b - a else a - b }

  /** The bit that breaks ties: the significand of the float v is even. */
  ghost predicate EvenSignificand(v: nat) { v / Ulp(v) % 2 == 0 }

  /** Round picks the end of the cell that is nearer, the even one in a tie. */
  lemma RoundInCell(n: nat)
    ensures Round(n) == if 2 * (n % Ulp(n)) < Ulp(n) || (2 * (n % Ulp(n)) == Ulp(n) && n / Ulp(n) % 2 == 0)
                        then CellLow(n) else CellLow(n) + Ulp(n)
  {
    Cells(n, Ulp(n));
  }

  lemma EvenQuotient(q: nat, k: nat)
    requires P52 <= q <= P53 && q % 2 == 0
    ensures EvenSignificand(q * Pow2(k))
  {
    FloatAt(q, k);
    if q < P53 {
      MultipleMod(q, Pow2(k));
    } else {
      assert q * Pow2(k) == P52 * (2 * Pow2(k));
      MultipleMod(P52, 2 * Pow2(k));
    }
  }

  lemma TieGoesToEven(n: nat)
    requires n >= P52 && 2 * (n % Ulp(n)) == Ulp(n)
    ensures EvenSignificand(Round(n))
  {
    var k := CellQuotient(n);
    var q := n / Ulp(n);
    EvenQuotient(if q % 2 == 0 then q else q + 1, k);
  }

  /** Round is roundTiesToEven: the result is a float, no float is nearer, and of two equally
      near floats the one with the even significand is taken. */
  lemma RoundIsNearestTiesToEven(n: nat)
    ensures IsFloat64(Round(n))
    ensures forall f: nat :: IsFloat64(f) ==> Dist(n, Round(n)) <= Dist(n, f)
    ensures forall f: nat :: IsFloat64(f) && f != Round(n) && Dist(n, f) == Dist(n, Round(n))
                             ==> EvenSignificand(Round(n))
  {
    Cell(n);
    CellHolds(n);
    RoundInCell(n);
    if n >= P52 && 2 * (n % Ulp(n)) == Ulp(n) {
      TieGoesToEven(n);
    }
  }

  lemma RoundFixesFloats(v: nat)
    ensures IsFloat64(v) <==> Round(v) == v
  {
    RoundIsNearestTiesToEven(v);
  }

  lemma RoundMonotone(a: nat, b: nat)
    requires a <= b
    ensures Round(a) <= Round(b)
  {
    RoundIsNearestTiesToEven(a);
    RoundIsNearestTiesToEven(b);
  }

  lemma RoundError(n: nat)
    ensures 2 * Dist(n, Round(n)) <= Ulp(n)
    ensures n < P53 ==> Round(n) == n
  {
    CellHolds(n);
    RoundInCell(n);
  }

  // ---------------------------------------------------------------- neighbours

  lemma NextUpIsLeastAbove(v: nat)
    requires IsFloat64(v)
    ensures IsFloat64(NextUp(v)) && v < NextUp(v)
    ensures forall f: nat :: IsFloat64(f) && v < f ==> NextUp(v) <= f
  {
    FloatIffMultiple(v);
    Cell(v);
    CellHolds(v);
  }

  lemma NextDownIsGreatestBelow(v: nat)
    requires IsFloat64(v) && v > 0
    ensures 0 <= NextDown(v) < v && IsFloat64(NextDown(v))
    ensures forall f: nat :: IsFloat64(f) && f < v ==> f <= NextDown(v)
  {
    // v is the upper end of the cell that holds v - 1.
    Cell(v - 1);
    CellHolds(v - 1);
  }
}
