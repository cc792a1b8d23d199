/**
 Equality of values by what they are worth.
 */
module NumericEquality {
  import opened Json

  /** A number m * 2^x, or what a float can be besides. */
  datatype Number = Finite(m: int, x: int) | Infinite(negative: bool) | NoNumber

  const TWO_52 := 0x10_0000_0000_0000
  const TWO_63 := 0x8000_0000_0000_0000
  const TWO_64 := 0x1_0000_0000_0000_0000

  function Signed(negative: bool, m: int): int {
    if negative then -m else m
  }

  function Exponent(bits: UInt64): nat {
    (bits / TWO_52) % 2048
  }

  function Fraction(bits: UInt64): nat {
    bits % TWO_52
  }

  /** What an IEEE 754 pattern stands for. */
  function FloatNumber(bits: UInt64): Number {
    var e, fraction, negative := Exponent(bits), Fraction(bits), bits >= TWO_63;
    if e == 2047 then (if fraction == 0 then Infinite(negative) else NoNumber)
    else if e == 0 then Finite(Signed(negative, fraction), -1074)
    else Finite(Signed(negative, fraction + TWO_52), e - 1075)
  }

  /** Two numbers are worth the same. */
  predicate SameNumber(p: Number, q: Number) {
    match (p, q)
    case (Finite(m, x), Finite(n, y)) => if x <= y then m == n * Pow2(y - x) else m * Pow2(x - y) == n
    case (Infinite(s), Infinite(t)) => s == t
    case _ => false
  }

  predicate IsNumber(j: Json) {
    j.Int? || j.UInt? || j.Float?
  }

  function NumberIn(j: Json): Number
    requires IsNumber(j)
  {
    match j
    case Int(i) => Finite(i, 0)
    case UInt(u) => Finite(u, 0)
    case Float(f) => FloatNumber(f)
  }

  /** The equality of the standard. */
  predicate StandardEq(v: Json, w: Json)
    decreases v
  {
    match (v, w)
    case (Null, Null) => true
    case (Bool(p), Bool(q)) => p == q
    case (Str(s), Str(t)) => s == t
    case (Arr(a), Arr(b)) => |a| == |b| && forall i :: 0 <= i < |a| ==> StandardEq(a[i], b[i])
    case (Obj(m), Obj(n)) => m.Keys == n.Keys && forall k :: k in m ==> StandardEq(m[k], n[k])
    case _ => IsNumber(v) && IsNumber(w) && SameNumber(NumberIn(v), NumberIn(w))
  }

  /** A double holds the integer as it is: its bits below the highest 53 are zero. */
  predicate Exact(n: int) {
    n == 0 || HighBit(Magnitude(n)) <= 52 || Magnitude(n) % Pow2(HighBit(Magnitude(n)) - 52) == 0
  }

  function Magnitude(n: int): nat {
    if n < 0 then -n else n
  }

  /**
   Somewhere in two values stand numbers that operator== takes for equal although they are not: a signed and an unsigned
   one with the same 64 bits, or an integer and the different double to which it is rounded.
   */
  predicate Clash(v: Json, w: Json)
    decreases v
  {
    match (v, w)
    case (Arr(a), Arr(b)) => exists i :: 0 <= i < |a| && i < |b| && Clash(a[i], b[i])
    case (Obj(m), Obj(n)) => exists k :: k in m && k in n && Clash(m[k], n[k])
    case (UInt(u), Int(i)) => u == i + TWO_64
    case (Int(i), UInt(u)) => u == i + TWO_64
    case (Int(n), Float(f)) => !Exact(n) && FloatEq(DoubleOf(n), f)
    case (Float(f), Int(n)) => !Exact(n) && FloatEq(DoubleOf(n), f)
    case (UInt(n), Float(f)) => !Exact(n) && FloatEq(DoubleOf(n), f)
    case (Float(f), UInt(n)) => !Exact(n) && FloatEq(DoubleOf(n), f)
    case _ => false
  }

  // -------------------------------------------------------------------------------------
  // Powers of two
  // -------------------------------------------------------------------------------------

  lemma {:induction false} Pow2Plus(a: nat, b: nat)
    ensures Pow2(a + b) == Pow2(a) * Pow2(b)
  {
    if a > 0 {
      Pow2Plus(a - 1, b);
      Doubled(Pow2(a - 1), Pow2(b));
    }
  }

  lemma Doubled(p: int, q: int)
    ensures 2 * (p * q) == (2 * p) * q
  {
  }

  lemma MulAssociates(p: int, q: int, r: int)
    ensures p * (q * r) == (p * q) * r
  {
  }

  lemma Distributes(m: int, d: int, p: int)
    ensures (m + d) * p == m * p + d * p
  {
  }

  lemma Times(d: int, p: int)
    requires d > 0 && p > 0
    ensures d * p > 0
  {
  }

  lemma Scale(m: int, n: int, p: nat)
    requires p > 0
    ensures m * p == n * p <==> m == n
    ensures m * p < n * p <==> m < n
  {
    if m < n {
      Distributes(m, n - m, p);
      Times(n - m, p);
    } else if m > n {
      Distributes(n, m - n, p);
      Times(m - n, p);
    }
  }

  /** Numbers compared at any common exponent. */
  lemma Rescaled(m: int, x: int, n: int, y: int, z: int)
    requires z <= x && z <= y
    ensures SameNumber(Finite(m, x), Finite(n, y)) <==> m * Pow2(x - z) == n * Pow2(y - z)
  {
    if x <= y {
      Pow2Plus(y - x, x - z);
      MulAssociates(n, Pow2(y - x), Pow2(x - z));
      Scale(m, n * Pow2(y - x), Pow2(x - z));
    } else {
      Pow2Plus(x - y, y - z);
      MulAssociates(m, Pow2(x - y), Pow2(y - z));
      Scale(m * Pow2(x - y), n, Pow2(y - z));
    }
  }

  lemma SameNumberTrans(p: Number, q: Number, r: Number)
    requires SameNumber(p, q) && SameNumber(q, r)
    ensures SameNumber(p, r) && SameNumber(q, p)
  {
    if p.Finite? {
      var z := if p.x <= q.x && p.x <= r.x then p.x else if q.x <= r.x then q.x else r.x;
      Rescaled(p.m, p.x, q.m, q.x, z);
      Rescaled(q.m, q.x, p.m, p.x, z);
      Rescaled(q.m, q.x, r.m, r.x, z);
      Rescaled(p.m, p.x, r.m, r.x, z);
    }
  }

  lemma SameNumberSym(p: Number, q: Number)
    ensures SameNumber(p, q) <==> SameNumber(q, p)
  {
    if p.Finite? && q.Finite? {
      var z := if p.x <= q.x then p.x else q.x;
      Rescaled(p.m, p.x, q.m, q.x, z);
      Rescaled(q.m, q.x, p.m, p.x, z);
    }
  }

  lemma Squared(a: nat, p: nat)
    requires Pow2(a) == p
    ensures Pow2(a + a) == p * p
  {
    Pow2Plus(a, a);
  }

  /** The powers that the format is made of. */
  lemma FormatPowers()
    ensures Pow2(52) == TWO_52 && Pow2(53) == 2 * TWO_52 && Pow2(64) == TWO_64
  {
    assert Pow2(2) == 4;
    Squared(2, 4);
    Squared(4, 16);
    Squared(8, 256);
    Squared(16, 0x1_0000);
    Squared(32, 0x1_0000_0000);
    Pow2Plus(32, 16);
    Pow2Plus(48, 4);
    Pow2Plus(52, 1);
    assert Pow2(1) == 2;
  }

  lemma {:induction false} HighBitBounds(n: nat)
    requires n > 0
    ensures Pow2(HighBit(n)) <= n < Pow2(HighBit(n) + 1)
  {
    if n > 1 {
      HighBitBounds(n / 2);
    }
  }

  lemma {:induction false} Pow2Grows(a: nat, b: nat)
    requires a <= b
    ensures Pow2(a) <= Pow2(b)
    decreases b - a
  {
    if a < b {
      Pow2Grows(a + 1, b);
    }
  }

  lemma HighBitBelow(n: nat, k: nat)
    requires 0 < n < Pow2(k)
    ensures HighBit(n) < k
  {
    HighBitBounds(n);
    if HighBit(n) >= k {
      Pow2Grows(k, HighBit(n));
    }
  }

  // -------------------------------------------------------------------------------------
  // Floats
  // -------------------------------------------------------------------------------------

  /** Finite floats with the same value have the same significand and exponent. */
  lemma OneForm(m: int, x: int, n: int, y: int)
    requires x <= y && SameNumber(Finite(m, x), Finite(n, y))
    requires Magnitude(m) < 2 * TWO_52 && (x < y ==> Magnitude(n) >= TWO_52)
    ensures x == y && m == n
  {
    if x < y {
      Pow2Grows(1, y - x);
      AtLeastTwice(n, Pow2(y - x));
    }
  }

  lemma AtLeastTwice(n: int, p: nat)
    requires p >= 2
    ensures Magnitude(n * p) >= 2 * Magnitude(n)
  {
    Distributes(2, p - 2, n);
    Commutes(n, p);
    if n > 0 && p > 2 {
      Times(p - 2, n);
    } else if n < 0 && p > 2 {
      Times(p - 2, -n);
      Commutes(-n, p - 2);
      Commutes(n, p - 2);
    }
  }

  lemma Commutes(p: int, q: int)
    ensures p * q == q * p && (-p) * q == -(p * q)
  {
  }

  /** A pattern is its three fields. */
  lemma Fields(f: UInt64)
    ensures f == (if f >= TWO_63 then TWO_63 else 0) + Exponent(f) * TWO_52 + Fraction(f)
    ensures IsNaN(f) <==> Exponent(f) == 2047 && Fraction(f) != 0
    ensures IsZero(f) <==> Exponent(f) == 0 && Fraction(f) == 0
  {
    var q := f / TWO_52;
    assert f == q * TWO_52 + Fraction(f);
    assert q == (q / 2048) * 2048 + Exponent(f) && q / 2048 == if f >= TWO_63 then 1 else 0;
  }

  /** A pattern with some fields. */
  lemma FieldsGiven(f: UInt64, negative: bool, e: nat, fraction: nat)
    requires f == (if negative then TWO_63 else 0) + e * TWO_52 + fraction && e < 2048 && fraction < TWO_52
    ensures Exponent(f) == e && Fraction(f) == fraction && (f >= TWO_63 <==> negative)
  {
    var q := (if negative then 2048 else 0) + e;
    assert f == q * TWO_52 + fraction;
    assert f / TWO_52 == q && f % TWO_52 == fraction;
  }

  lemma FloatsCompared(f: UInt64, g: UInt64)
    ensures SameNumber(FloatNumber(f), FloatNumber(g)) <==> FloatEq(f, g)
  {
    Fields(f);
    Fields(g);
    var p, q := FloatNumber(f), FloatNumber(g);
    if p.Finite? && q.Finite? {
      if SameNumber(p, q) {
        SameNumberSym(p, q);
        if p.x <= q.x {
          OneForm(p.m, p.x, q.m, q.x);
        } else {
          OneForm(q.m, q.x, p.m, p.x);
        }
      }
      assert p == q ==> SameNumber(p, q) by { assert Pow2(0) == 1; }
    }
  }

  /** The significand has 53 bits, or is the 2^53 that carries. */
  lemma SignificandBounds(n: nat)
    requires n > 0
    ensures TWO_52 <= Significand(n) <= 2 * TWO_52
    ensures Exact(n) ==> SameNumber(Finite(n, 0), Finite(Significand(n), HighBit(n) - 52))
  {
    if HighBit(n) <= 52 {
      ShortSignificand(n);
    } else {
      LongSignificand(n);
    }
  }

  lemma ShortSignificand(n: nat)
    requires n > 0 && HighBit(n) <= 52
    ensures TWO_52 <= Significand(n) <= 2 * TWO_52
    ensures SameNumber(Finite(n, 0), Finite(Significand(n), HighBit(n) - 52))
  {
    var e := HighBit(n);
    HighBitBounds(n);
    FormatPowers();
    Pow2Plus(e, 52 - e);
    Pow2Plus(e + 1, 52 - e);
    Scale(Pow2(e), n, Pow2(52 - e));
    Scale(n, Pow2(e + 1), Pow2(52 - e));
  }

  lemma LongSignificand(n: nat)
    requires n > 0 && HighBit(n) > 52
    ensures TWO_52 <= Significand(n) <= 2 * TWO_52
    ensures Exact(n) ==> SameNumber(Finite(n, 0), Finite(Significand(n), HighBit(n) - 52))
  {
    var unit := Pow2(HighBit(n) - 52);
    LongBounds(n, unit);
    Divided(n, unit, TWO_52, 2 * TWO_52);
    assert n % unit == 0 ==> Significand(n) == n / unit;
  }

  lemma Divided(n: nat, unit: nat, low: nat, high: nat)
    requires unit > 0 && low * unit <= n < high * unit
    ensures low <= n / unit < high && n == (n / unit) * unit + n % unit
  {
    var q, r := n / unit, n % unit;
    Commutes(q, unit);
    Quotient(q, r, unit, low);
    Quotient(q, r, unit, high);
  }

  lemma LongBounds(n: nat, unit: nat)
    requires n > 0 && HighBit(n) > 52 && unit == Pow2(HighBit(n) - 52)
    ensures TWO_52 * unit <= n < (2 * TWO_52) * unit
  {
    HighBitBounds(n);
    FormatPowers();
    Pow2Plus(52, HighBit(n) - 52);
    Pow2Plus(53, HighBit(n) - 52);
  }

  lemma Quotient(q: nat, r: nat, unit: nat, k: nat)
    requires r < unit
    ensures k * unit <= q * unit + r <==> k <= q
  {
    if k <= q {
      Scale(k, q, unit);
    } else {
      Scale(q + 1, k, unit);
      Distributes(q, 1, unit);
    }
  }

  /** The pattern of an integer is that of its rounded significand. */
  lemma DoubleNumber(n: int)
    requires -TWO_64 < n < TWO_64 && n != 0
    ensures 0 <= DoubleOf(n) < TWO_64
    ensures var m := Magnitude(n);
      SameNumber(FloatNumber(DoubleOf(n)), Finite(Signed(n < 0, Significand(m)), HighBit(m) - 52))
  {
    var m := Magnitude(n);
    SignificandBounds(m);
    FormatPowers();
    HighBitBelow(m, 64);
    Assembled(DoubleOf(n), n < 0, HighBit(m) + 1022, Significand(m));
  }

  /** A significand of 2^53 carries into the exponent. */
  lemma Assembled(d: int, negative: bool, e: nat, s: nat)
    requires e < 1100 && TWO_52 <= s <= 2 * TWO_52 && d == (if negative then TWO_63 else 0) + e * TWO_52 + s
    ensures 0 <= d < TWO_64 && SameNumber(FloatNumber(d), Finite(Signed(negative, s), e - 1074))
  {
    assert Pow2(1) == 2 && Pow2(0) == 1;
    if s < 2 * TWO_52 {
      FieldsGiven(d, negative, e + 1, s - TWO_52);
    } else {
      FieldsGiven(d, negative, e + 2, 0);
    }
  }

  /** Rounding keeps exact integers. */
  lemma ExactDouble(n: int)
    requires -TWO_64 < n < TWO_64
    ensures 0 <= DoubleOf(n) < TWO_64
    ensures Exact(n) ==> SameNumber(Finite(n, 0), FloatNumber(DoubleOf(n)))
  {
    if n == 0 {
      FieldsGiven(0, false, 0, 0);
      ZeroIsZero(FloatNumber(0).x);
    } else {
      DoubleNumber(n);
      SignificandBounds(Magnitude(n));
      if Exact(n) {
        SameSigned(n, Significand(Magnitude(n)), HighBit(Magnitude(n)) - 52, FloatNumber(DoubleOf(n)));
      }
    }
  }

  lemma ZeroIsZero(x: int)
    ensures SameNumber(Finite(0, 0), Finite(0, x))
  {
  }

  lemma SameSigned(n: int, s: nat, x: int, d: Number)
    requires SameNumber(Finite(Magnitude(n), 0), Finite(s, x)) && SameNumber(d, Finite(Signed(n < 0, s), x))
    ensures SameNumber(Finite(n, 0), d)
  {
    Negated(Magnitude(n), 0, s, x);
    SameNumberThroughSym(Finite(n, 0), Finite(Signed(n < 0, s), x), d);
  }

  lemma SameNumberThroughSym(p: Number, q: Number, r: Number)
    requires SameNumber(p, q) && SameNumber(r, q)
    ensures SameNumber(p, r)
  {
    SameNumberSym(r, q);
    SameNumberTrans(p, q, r);
  }

  lemma Negated(m: int, x: int, n: int, y: int)
    ensures SameNumber(Finite(m, x), Finite(n, y)) <==> SameNumber(Finite(-m, x), Finite(-n, y))
  {
    if x <= y {
      Commutes(n, Pow2(y - x));
    } else {
      Commutes(m, Pow2(x - y));
    }
  }

  /** An integer that is worth a float has no more than 53 significant bits. */
  lemma FloatIsExact(n: int, m: int, x: int)
    requires SameNumber(Finite(n, 0), Finite(m, x)) && Magnitude(m) < 2 * TWO_52
    ensures Exact(n)
  {
    if n != 0 {
      var a, b := Magnitude(n), Magnitude(m);
      Negated(n, 0, m, x);
      if x <= 0 {
        SmallIsExact(a, b, -x);
      } else {
        ShiftedIsExact(a, b, x);
      }
    }
  }

  lemma SmallIsExact(a: nat, b: nat, x: nat)
    requires a > 0 && a * Pow2(x) == b && b < 2 * TWO_52
    ensures HighBit(a) <= 52
  {
    FormatPowers();
    Scale(1, Pow2(x), a);
    Commutes(a, Pow2(x));
    HighBitBelow(a, 53);
  }

  lemma ShiftedIsExact(a: nat, b: nat, x: nat)
    requires a > 0 && a == b * Pow2(x) && b < 2 * TWO_52
    ensures HighBit(a) <= 52 || a % Pow2(HighBit(a) - 52) == 0
  {
    FormatPowers();
    Scale(b, Pow2(53), Pow2(x));
    Pow2Plus(53, x);
    HighBitBelow(a, 53 + x);
    var k := HighBit(a) - 52;
    if k > 0 {
      Pow2Plus(x - k, k);
      MulAssociates(b, Pow2(x - k), Pow2(k));
      Multiple(b * Pow2(x - k), Pow2(k));
    }
  }

  lemma Multiple(q: nat, p: nat)
    requires p > 0
    ensures (q * p) % p == 0
  {
    var r := (q * p) % p;
    var d := (q * p) / p;
    assert q * p == d * p + r;
    Quotient(d, r, p, q);
    if q < d {
      Scale(q + 1, d, p);
      Distributes(q, 1, p);
    }
  }

  lemma IntegerCompared(n: int, f: UInt64)
    requires -TWO_64 < n < TWO_64
    ensures SameNumber(Finite(n, 0), FloatNumber(f)) <==> FloatEq(DoubleOf(n), f) && Exact(n)
  {
    ExactDouble(n);
    var d := FloatNumber(DoubleOf(n));
    FloatsCompared(DoubleOf(n), f);
    if SameNumber(Finite(n, 0), FloatNumber(f)) {
      var g := FloatNumber(f);
      FloatIsExact(n, g.m, g.x);
      SameNumberSym(Finite(n, 0), d);
      SameNumberTrans(d, Finite(n, 0), g);
    } else if Exact(n) && FloatEq(DoubleOf(n), f) {
      SameNumberTrans(Finite(n, 0), d, FloatNumber(f));
    }
  }

  // -------------------------------------------------------------------------------------
  // Whole values
  // -------------------------------------------------------------------------------------

  lemma NumbersCompared(v: Json, w: Json)
    requires IsNumber(v) && IsNumber(w)
    ensures StandardEq(v, w) <==> Eq(v, w) && !Clash(v, w)
  {
    SameNumberSym(NumberIn(v), NumberIn(w));
    match (v, w)
    case (Float(f), Float(g)) => FloatsCompared(f, g);
    case (Int(n), Float(f)) => IntegerCompared(n, f);
    case (UInt(n), Float(f)) => IntegerCompared(n, f);
    case (Float(f), Int(n)) => IntegerCompared(n, f);
    case (Float(f), UInt(n)) => IntegerCompared(n, f);
    case _ =>
  }

  /** operator== takes for equal what is equal, and beyond that only numbers that clash. */
  lemma {:induction false} EqualUnlessClash(v: Json, w: Json)
    ensures StandardEq(v, w) <==> Eq(v, w) && !Clash(v, w)
    decreases v
  {
    match (v, w)
    case (Arr(a), Arr(b)) =>
      forall i | 0 <= i < |a| && i < |b| ensures StandardEq(a[i], b[i]) <==> Eq(a[i], b[i]) && !Clash(a[i], b[i]) {
        EqualUnlessClash(a[i], b[i]);
      }
    case (Obj(m), Obj(n)) =>
      forall k | k in m && k in n ensures StandardEq(m[k], n[k]) <==> Eq(m[k], n[k]) && !Clash(m[k], n[k]) {
        EqualUnlessClash(m[k], n[k]);
      }
    case _ =>
      if IsNumber(v) && IsNumber(w) {
        NumbersCompared(v, w);
      }
  }
}
