/**
 JSON values and their equality.
 */
module Json {

  type Int64 = x: int | -0x8000_0000_0000_0000 <= x < 0x8000_0000_0000_0000
  type UInt64 = x: int | 0 <= x < 0x1_0000_0000_0000_0000

  /** A float is its 64-bit IEEE 754 pattern; the char of a string is one byte. */
  datatype Json =
    | Null
    | Bool(b: bool)
    | Int(i: Int64)
    | UInt(u: UInt64)
    | Float(bits: UInt64)
    | Str(s: string)
    | Arr(a: seq<Json>)
    | Obj(m: map<string, Json>)

  datatype Kind = KNull | KBool | KInt | KUInt | KFloat | KStr | KArr | KObj

  function TypeOf(j: Json): Kind {
    match j
    case Null => KNull
    case Bool(_) => KBool
    case Int(_) => KInt
    case UInt(_) => KUInt
    case Float(_) => KFloat
    case Str(_) => KStr
    case Arr(_) => KArr
    case Obj(_) => KObj
  }

  predicate IsPrimitive(j: Json) {
    !j.Arr? && !j.Obj?
  }

  /** An array or an object that is not empty. */
  predicate IsContainer(j: Json) {
    (j.Arr? && j.a != []) || (j.Obj? && j.m != map[])
  }

  function Pow2(n: nat): (p: nat)
    ensures p > 0
  {
    if n == 0 then 1 else 2 * Pow2(n - 1)
  }

  /** The position of the highest bit of a positive number. */
  function HighBit(n: nat): nat
    requires n > 0
  {
    if n == 1 then 0 else 1 + HighBit(n / 2)
  }

  /** The significand of a positive integer as a double. */
  function Significand(n: nat): nat
    requires n > 0
  {
    var e := HighBit(n);
    if e <= 52 then n * Pow2(52 - e)
    else Rounded(n, Pow2(e - 52))
  }

  /** A quotient, rounded to the nearest, ties to even. */
  function Rounded(n: nat, unit: nat): nat
    requires unit > 0
  {
    var q, r := n / unit, n % unit;
    if 2 * r > unit || (2 * r == unit && q % 2 == 1) then q + 1 else q
  }

  /** The pattern of the double nearest to an integer; a significand of 2^53 carries into the exponent. */
  function DoubleOf(n: int): int {
    if n == 0 then 0
    else
      var m := if n < 0 then -n else n;
      (if n < 0 then 0x8000_0000_0000_0000 else 0)
      + (HighBit(m) + 1022) * 0x10_0000_0000_0000 + Significand(m)
  }

  predicate IsNaN(bits: int) {
    (bits / 0x10_0000_0000_0000) % 2048 == 2047 && bits % 0x10_0000_0000_0000 != 0
  }

  predicate IsZero(bits: int) {
    bits % 0x8000_0000_0000_0000 == 0
  }

  predicate FloatEq(x: int, y: int) {
    !IsNaN(x) && !IsNaN(y) && (x == y || (IsZero(x) && IsZero(y)))
  }

  /** The signed number with the bits of an unsigned one. */
  function AsSigned(u: UInt64): Int64 {
    if u < 0x8000_0000_0000_0000 then u else u - 0x1_0000_0000_0000_0000
  }

  /** operator==: numbers are compared across their types. */
  predicate Eq(x: Json, y: Json)
    decreases x
  {
    match (x, y)
    case (Null, Null) => true
    case (Bool(p), Bool(q)) => p == q
    case (Str(s), Str(t)) => s == t
    case (Arr(a), Arr(b)) => |a| == |b| && forall i :: 0 <= i < |a| ==> Eq(a[i], b[i])
    case (Obj(m), Obj(n)) => m.Keys == n.Keys && forall k :: k in m ==> Eq(m[k], n[k])
    case (Int(i), Int(k)) => i == k
    case (UInt(u), UInt(v)) => u == v
    case (Float(f), Float(g)) => FloatEq(f, g)
    case (Int(i), Float(f)) => FloatEq(DoubleOf(i), f)
    case (Float(f), Int(i)) => FloatEq(f, DoubleOf(i))
    case (UInt(u), Float(f)) => FloatEq(DoubleOf(u), f)
    case (Float(f), UInt(u)) => FloatEq(f, DoubleOf(u))
    case (UInt(u), Int(i)) => AsSigned(u) == i
    case (Int(i), UInt(u)) => i == AsSigned(u)
    case _ => false
  }

  predicate NaNFree(j: Json) {
    match j
    case Float(f) => !IsNaN(f)
    case Arr(a) => forall i :: 0 <= i < |a| ==> NaNFree(a[i])
    case Obj(m) => forall k :: k in m ==> NaNFree(m[k])
    case _ => true
  }

  /** A value equals itself exactly when it holds no NaN. */
  lemma {:induction false} EqReflexive(j: Json)
    ensures Eq(j, j) <==> NaNFree(j)
  {
    match j
    case Arr(a) =>
      forall i | 0 <= i < |a| ensures Eq(a[i], a[i]) <==> NaNFree(a[i]) { EqReflexive(a[i]); }
    case Obj(m) =>
      forall k | k in m ensures Eq(m[k], m[k]) <==> NaNFree(m[k]) { EqReflexive(m[k]); }
    case _ =>
  }

  /** Equal values hold no NaN. */
  lemma {:induction false} EqIsNaNFree(s: Json, t: Json)
    requires Eq(s, t)
    ensures NaNFree(t)
    decreases s
  {
    match (s, t)
    case (Arr(a), Arr(b)) =>
      forall k | 0 <= k < |a| ensures NaNFree(b[k]) { EqIsNaNFree(a[k], b[k]); }
    case (Obj(m), Obj(n)) =>
      forall k | k in m ensures NaNFree(n[k]) { EqIsNaNFree(m[k], n[k]); }
    case _ =>
  }
}
