/**
  Integers as a double holds them: 53 significant bits, anything else rounded to the nearest
  such integer, halves to the even one. Sums of two doubles are rounded this way.
*/
module Doubles {
  const Mantissa: nat := 0x20_0000_0000_0000

  function Pow2(e: nat): (r: nat)
    ensures r >= 1
  {
    if e == 0 then 1 else 2 * Pow2(e - 1)
  }

  function Magnitude(v: int): nat {
    if v < 0 then -v else v
  }

  /** An integer with at most 53 significant bits. */
  ghost predicate IsDouble(v: int) {
    exists m: nat, e: nat :: Significant(v, m, e)
  }

  predicate Significant(v: int, m: nat, e: nat) {
    m < Mantissa && Magnitude(v) == m * Pow2(e)
  }

  /** How many low bits a double has no room for. */
  function Excess(m: nat): nat {
    if m < Mantissa then 0 else 1 + Excess(m / 2)
  }

  /** The distance between doubles of this magnitude. */
  function Unit(m: nat): (u: nat)
    ensures u >= 1
  {
    Pow2(Excess(m))
  }

  /** The greatest multiple of the unit that is not above. */
  function Low(m: nat, u: nat): nat
    requires u >= 1
  {
    (m / u) * u
  }

  function Left(m: nat, u: nat): nat
    requires u >= 1
  {
    m % u
  }

  function NearestMagnitude(m: nat): nat {
    var u := Unit(m);
    Nearer(Low(m, u), Left(m, u), u, (m / u) % 2 == 0)
  }

  /** Down to `low` or up by one unit, whichever is nearer; halfway, to the even one. */
  function Nearer(low: nat, r: nat, u: nat, even: bool): nat {
    if 2 * r < u || (2 * r == u && even) then low else low + u
  }

  function Nearest(v: int): int {
    if v < 0 then -(NearestMagnitude(-v) as int) else NearestMagnitude(v)
  }

  // ---------------------------------------------------------------------------
  // What rounding does
  // ---------------------------------------------------------------------------

  lemma {:induction false} UnitBounds(m: nat)
    ensures m < Mantissa * Unit(m)
    ensures Excess(m) > 0 ==> (Mantissa / 2) * Unit(m) <= m
  {
    if m >= Mantissa {
      UnitBounds(m / 2);
      assert Unit(m) == 2 * Unit(m / 2);
      assert m <= 2 * (m / 2) + 1;
    }
  }

  lemma {:induction false} PowerAdds(a: nat, b: nat)
    ensures Pow2(a + b) == Pow2(a) * Pow2(b)
  {
    if a > 0 {
      PowerAdds(a - 1, b);
      assert Pow2(a + b) == 2 * Pow2(a - 1 + b);
    }
  }

  lemma Divides(k: nat, u: nat)
    requires u >= 1
    ensures (k * u) % u == 0 && (k * u) / u == k
  {
    DivMod(k * u, u, k, 0);
  }

  lemma DivMod(n: nat, u: nat, q: nat, r: nat)
    requires u >= 1 && r < u && n == q * u + r
    ensures n / u == q && n % u == r
  {
    var q', r' := n / u, n % u;
    assert n == u * q' + r';
    if q' < q {
      Times(q' + 1, q, u);
    } else if q' > q {
      Times(q + 1, q', u);
    }
  }

  lemma Times(a: nat, b: nat, u: nat)
    requires a <= b
    ensures a * u <= b * u
  {
  }

  /** A double at least half the binade's top is a multiple of the binade's unit. */
  lemma DoublesAreMultiples(d: int, k: nat)
    requires IsDouble(d) && Magnitude(d) >= (Mantissa / 2) * Pow2(k)
    ensures Magnitude(d) % Pow2(k) == 0
  {
    var m: nat, e: nat :| Significant(d, m, e);
    if e >= k {
      MultipleOfPower(m, e, k);
    } else {
      TooSmall(m, e, k);
    }
  }

  lemma MultipleOfPower(m: nat, e: nat, k: nat)
    requires k <= e
    ensures (m * Pow2(e)) % Pow2(k) == 0
  {
    PowerAdds(e - k, k);
    var a, b := Pow2(e - k), Pow2(k);
    assert Pow2(e) == a * b;
    hide Pow2;
    TimesAssociate(m, a, b);
    Divides(m * a, b);
  }

  lemma TooSmall(m: nat, e: nat, k: nat)
    requires m < Mantissa && e < k
    ensures m * Pow2(e) < (Mantissa / 2) * Pow2(k)
  {
    SmallerPower(e, k - 1);
    assert Pow2(k) == 2 * Pow2(k - 1);
    var a, b := Pow2(e), Pow2(k - 1);
    hide Pow2;
    SmallProduct(m, a, b);
  }

  lemma TimesAssociate(a: nat, b: nat, c: nat)
    ensures a * (b * c) == (a * b) * c
  {
  }

  lemma SmallProduct(m: nat, a: nat, b: nat)
    requires m < Mantissa && 1 <= a <= b
    ensures m * a < Mantissa * b
  {
    Times(m + 1, Mantissa, a);
  }

  lemma {:induction false} SmallerPower(a: nat, b: nat)
    requires a <= b
    ensures Pow2(a) <= Pow2(b)
  {
    if a < b {
      SmallerPower(a, b - 1);
    }
  }

  /** An integer is a double exactly when the bits there is no room for are zero. */
  lemma DoublesExactly(v: int)
    ensures IsDouble(v) <==> Magnitude(v) % Unit(Magnitude(v)) == 0
  {
    var m := Magnitude(v);
    UnitBounds(m);
    var u := Unit(m);
    if m % u == 0 {
      var q := m / u;
      assert m == q * u;
      assert q < Mantissa by {
        if q >= Mantissa {
          Times(Mantissa, q, u);
        }
      }
      assert Significant(v, q, Excess(m));
    }
    if IsDouble(v) && Excess(m) > 0 {
      DoublesAreMultiples(v, Excess(m));
    }
  }

  /** A magnitude lies between two multiples of its unit, and rounds to one of them. */
  lemma Rounds(m: nat)
    ensures var u := Unit(m);
            var low, r, n := Low(m, u), Left(m, u), NearestMagnitude(m);
            && m == low + r && r < u
            && ((n == low && 2 * r <= u) || (n == low + u && 2 * r >= u))
  {
    var u := Unit(m);
    Splits(m, u);
    hide Unit, Low, Left;
  }

  lemma Splits(m: nat, u: nat)
    requires u >= 1
    ensures m == Low(m, u) + Left(m, u) && Left(m, u) < u
  {
  }

  lemma OneMore(q: nat, u: nat)
    ensures (q + 1) * u == q * u + u
  {
  }

  /** Rounding leaves an integer alone if and only if it is a double. */
  lemma NearestIsExact(v: int)
    ensures Nearest(v) == v <==> IsDouble(v)
    ensures Nearest(v) == v <==> Magnitude(v) % Unit(Magnitude(v)) == 0
  {
    DoublesExactly(v);
    var m := Magnitude(v);
    Rounds(m);
    assert Left(m, Unit(m)) == m % Unit(m);
    hide NearestMagnitude, Unit, IsDouble, Low, Left;
  }

  /** What it gives is a double, and no double is nearer. */
  lemma NearestIsNearest(v: int, d: int)
    requires IsDouble(d)
    ensures IsDouble(Nearest(v)) && Magnitude(Nearest(v) - v) <= Magnitude(d - v)
  {
    var m := Magnitude(v);
    Rounds(m);
    NearestIsADouble(m);
    hide NearestMagnitude, Unit, Low, Left;
    assert IsDouble(Nearest(v)) by {
      var a: nat, b: nat :| Significant(NearestMagnitude(m), a, b);
      assert Significant(Nearest(v), a, b);
    }
    NoneBetween(m, d);
    hide IsDouble;
  }

  /** Halfway between two doubles it is the one with an even last bit. */
  lemma HalvesToEven(v: int)
    requires var m := Magnitude(v); 2 * (m % Unit(m)) == Unit(m)
    ensures Magnitude(Nearest(v)) % (2 * Unit(Magnitude(v))) == 0
  {
    var m := Magnitude(v);
    var u, q := Unit(m), m / Unit(m);
    assert Low(m, u) == q * u && 2 * Left(m, u) == u;
    var k := (q + 1) / 2;
    assert NearestMagnitude(m) == if q % 2 == 0 then q * u else q * u + u;
    hide Unit, NearestMagnitude;
    OneMore(q, u);
    assert k + k == if q % 2 == 0 then q else q + 1;
    TwiceTimes(k, u);
    Divides(k, 2 * u);
  }

  lemma TwiceTimes(k: nat, u: nat)
    ensures (k + k) * u == k * (2 * u)
  {
  }

  lemma NoneBetween(m: nat, d: int)
    requires IsDouble(d)
    ensures var low := Low(m, Unit(m)); Magnitude(d) <= low || low + Unit(m) <= Magnitude(d)
  {
    UnitBounds(m);
    var u, e, c := Unit(m), Excess(m), Magnitude(d);
    var q := m / u;
    var low := q * u;
    if e > 0 && low < c < low + u {
      HalfTheTop(m);
      DoublesAreMultiples(d, e);
      DivMod(c, u, q, c - low);
      assert false;
    }
  }

  lemma HalfTheTop(m: nat)
    requires Excess(m) > 0
    ensures (Mantissa / 2) * Unit(m) <= (m / Unit(m)) * Unit(m)
  {
    UnitBounds(m);
    QuotientAtLeast(m, Unit(m), Mantissa / 2);
    Times(Mantissa / 2, m / Unit(m), Unit(m));
  }

  lemma QuotientAtLeast(m: nat, u: nat, k: nat)
    requires u >= 1 && k * u <= m
    ensures k <= m / u
  {
    var q := m / u;
    if q < k {
      Times(q + 1, k, u);
    }
  }

  lemma MultipleIsADouble(q: nat, e: nat)
    requires q <= Mantissa
    ensures IsDouble(q * Pow2(e))
  {
    if q < Mantissa {
      assert Significant(q * Pow2(e), q, e);
    } else {
      assert Pow2(e + 1) == 2 * Pow2(e);
      assert Significant(q * Pow2(e), Mantissa / 2, e + 1);
    }
  }

  lemma NearestIsADouble(m: nat)
    ensures IsDouble(NearestMagnitude(m))
  {
    UnitBounds(m);
    Rounds(m);
    var u, e := Unit(m), Excess(m);
    var q := m / u;
    assert q < Mantissa by {
      if q >= Mantissa {
        Splits(m, u);
        Times(Mantissa, q, u);
      }
    }
    MultipleIsADouble(q, e);
    MultipleIsADouble(q + 1, e);
    OneMore(q, u);
    assert Low(m, u) == q * u && u == Pow2(e);
    hide NearestMagnitude, Low, Left, Unit, Excess, Pow2, IsDouble;
  }

  lemma SafeIntegersAreExact(v: int)
    requires Magnitude(v) < Mantissa
    ensures Nearest(v) == v
  {
  }

  /** The first integer that is no double. */
  lemma FirstInexact()
    ensures Nearest(Mantissa + 1) == Mantissa
    ensures forall v :: Magnitude(v) <= Mantissa ==> Nearest(v) == v
  {
    assert Excess(Mantissa + 1) == 1 + Excess(Mantissa / 2);
    assert Pow2(1) == 2 * Pow2(0);
    forall v | Magnitude(v) <= Mantissa
      ensures Nearest(v) == v
    {
      assert Excess(Mantissa) == 1 + Excess(Mantissa / 2);
    }
  }
}
