/** JavaScript numbers as far as `Number(s)` on a digit string needs them: the
    IEEE 754 double nearest to the decimal value (ties to even), exact up to 2^53,
    and infinite from the overflow threshold on. */
module Numbers {
  import opened Wrappers

  /** 2^53: a double has 53 significant bits, so every integer up to this one is
      exact. */
  const SIGNIFICAND_LIMIT: nat := 0x20_0000_0000_0000

  /** The largest finite double is (2^53 - 1) · 2^971; 2^53 · 2^971 = 2^1024 is the
      first value past it. */
  const TOP_EXPONENT: nat := 971

  function Pow2(n: nat): (r: nat)
    ensures r >= 1
  {
    if n == 0 then 1 else 2 * Pow2(n - 1)
  }

  lemma {:induction false} Pow2Monotone(a: nat, b: nat)
    requires a <= b
    ensures Pow2(a) <= Pow2(b)
    decreases b - a
  {
    if a < b {
      Pow2Monotone(a, b - 1);
    }
  }

  /** The exponent of the spacing of the doubles around `v`: the doubles between
      2^(52+k) and 2^(53+k) are the multiples of 2^k. */
  function Exponent(v: nat): nat
    decreases v
  {
    if v < SIGNIFICAND_LIMIT then 0 else 1 + Exponent(v / 2)
  }

  /** `v` lies in the binade whose spacing is 2^Exponent(v). */
  lemma {:induction false} ExponentBounds(v: nat)
    ensures v < SIGNIFICAND_LIMIT * Pow2(Exponent(v))
    ensures Exponent(v) > 0 ==> SIGNIFICAND_LIMIT * Pow2(Exponent(v)) <= 2 * v
    decreases v
  {
    if v >= SIGNIFICAND_LIMIT {
      ExponentBounds(v / 2);
    }
  }

  lemma MulMonotone(a: nat, b: nat, u: nat)
    requires a <= b
    ensures a * u <= b * u
  {
    assert b * u == a * u + (b - a) * u;
  }

  lemma DivisionBounds(v: nat, u: nat)
    requires u > 0
    ensures (v / u) * u <= v < (v / u) * u + u
  {
  }

  /** The multiple of `u` nearest to `v`, as a count of `u`s; a tie goes to the even
      count. */
  function RoundedSignificand(v: nat, u: nat): (m: nat)
    requires u > 0
    ensures v <= m * u + u / 2 && m * u <= v + u / 2
  {
    var q := v / u;
    DivisionBounds(v, u);
    assert (q + 1) * u == q * u + u;
    if 2 * (v - q * u) > u || (2 * (v - q * u) == u && q % 2 == 1) then q + 1 else q
  }

  /** Rounding to multiples of `u` keeps `v` on its side of any multiple `c * u`. */
  lemma SignificandBounds(v: nat, u: nat, c: nat)
    requires u > 0
    ensures c * u <= v ==> c <= RoundedSignificand(v, u)
    ensures v < c * u ==> RoundedSignificand(v, u) <= c
  {
    var q := v / u;
    DivisionBounds(v, u);
    assert (q + 1) * u == q * u + u;
    if c * u <= v && q + 1 < c {
      MulMonotone(q + 1, c, u);
    }
    if v < c * u && c < q {
      MulMonotone(c, q, u);
    }
  }

  /** The significand of the double nearest to `v`, at the spacing of `v`'s binade. */
  function Significand(v: nat): nat {
    RoundedSignificand(v, Pow2(Exponent(v)))
  }

  /** `Number(d)` for the digit string `d` of value `v`: the nearest double, or `None`
      where it is infinite. */
  function NearestDouble(v: nat): (r: Option<nat>)
    ensures v <= SIGNIFICAND_LIMIT ==> r == Some(v)
    ensures r.Some? ==> r.value == Significand(v) * Pow2(Exponent(v)) && Significand(v) <= SIGNIFICAND_LIMIT
    ensures r.Some? ==> v <= r.value + Pow2(Exponent(v)) / 2 && r.value <= v + Pow2(Exponent(v)) / 2
    ensures r.Some? ==> r.value <= SIGNIFICAND_LIMIT * Pow2(Exponent(v))
    ensures r.Some? && v > 0 ==> r.value > 0
  {
    var u := Pow2(Exponent(v));
    var m := Significand(v);
    RoundedValueBounds(v);
    if m * u < SIGNIFICAND_LIMIT * Pow2(TOP_EXPONENT) then Some(m * u) else None
  }

  /** The facts about the rounded value that NearestDouble promises. */
  lemma RoundedValueBounds(v: nat)
    ensures var u := Pow2(Exponent(v)); var m := Significand(v);
      && (v <= SIGNIFICAND_LIMIT ==> m * u == v)
      && m <= SIGNIFICAND_LIMIT
      && m * u <= SIGNIFICAND_LIMIT * u
      && (v > 0 ==> m * u > 0)
  {
    var u := Pow2(Exponent(v));
    var m := RoundedSignificand(v, u);
    ExponentBounds(v);
    SignificandBounds(v, u, SIGNIFICAND_LIMIT);
    MulMonotone(m, SIGNIFICAND_LIMIT, u);
    if Exponent(v) == 0 {
      assert u == 1;
      assert v / u == v && v % u == 0;
    } else {
      if v == SIGNIFICAND_LIMIT {
        assert Exponent(v) == 1 && u == 2;
        assert v / u == SIGNIFICAND_LIMIT / 2 && v % u == 0;
      }
      assert u <= v;
      SignificandBounds(v, u, 1);
      MulMonotone(1, m, u);
    }
  }

  /** Decimal values from 2^1024 on are `Infinity`. */
  lemma NearestDoubleOverflows(v: nat)
    requires v >= SIGNIFICAND_LIMIT * Pow2(TOP_EXPONENT)
    ensures NearestDouble(v) == None
  {
    var k := Exponent(v);
    var u := Pow2(k);
    ExponentBounds(v);
    if k <= TOP_EXPONENT {
      Pow2Monotone(k, TOP_EXPONENT);
      assert false;
    }
    Pow2Monotone(TOP_EXPONENT, k - 1);
    var half := SIGNIFICAND_LIMIT / 2;
    SignificandBounds(v, u, half);
    var m := RoundedSignificand(v, u);
    MulMonotone(half, m, u);
    assert half * u >= SIGNIFICAND_LIMIT * Pow2(TOP_EXPONENT);
  }

  /** Decimal values below 2^1023 are finite. */
  lemma NearestDoubleFinite(v: nat)
    requires 2 * v < SIGNIFICAND_LIMIT * Pow2(TOP_EXPONENT)
    ensures NearestDouble(v).Some?
  {
    var k := Exponent(v);
    var u := Pow2(k);
    var m := Significand(v);
    var top := Pow2(TOP_EXPONENT);
    ExponentBounds(v);
    RoundedValueBounds(v);
    if k > 0 {
      assert u < top;
      if k >= TOP_EXPONENT {
        Pow2Monotone(TOP_EXPONENT, k);
        assert false;
      }
      Pow2Monotone(k + 1, TOP_EXPONENT);
      assert Pow2(k + 1) == 2 * u;
      assert m * u <= SIGNIFICAND_LIMIT * u < SIGNIFICAND_LIMIT * top;
    } else {
      assert m * u == v < SIGNIFICAND_LIMIT * top;
    }
    assert NearestDouble(v) == if m * u < SIGNIFICAND_LIMIT * top then Some(m * u) else None;
  }

  /** The first integer that is not a double, 2^53 + 1, is a tie between 2^53 and
      2^53 + 2 and rounds to the even significand, 2^53. */
  lemma RoundsPastSignificand()
    ensures NearestDouble(9007199254740993) == Some(9007199254740992)
  {
    assert Exponent(9007199254740993) == 1;
    assert RoundedSignificand(9007199254740993, 2) == 4503599627370496;
  }
}
