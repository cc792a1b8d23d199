/**
 Decimal numerals: std::to_string, std::stoi and the digit runs they share.
 */
module Numerals {
  import opened Integers
  import opened JsonResult

  function Digit(d: nat): char
    requires d < 10
  {
    '0' + d as char
  }

  predicate IsDigit(c: char) {
    '0' <= c <= '9'
  }

  function DigitValue(c: char): nat
    requires IsDigit(c)
  {
    (c - '0') as nat
  }

  /** The numeral of a natural number. */
  function Decimal(n: nat): (s: string)
    ensures s != [] && forall c :: c in s ==> IsDigit(c)
  {
    if n < 10 then [Digit(n)] else Decimal(n / 10) + [Digit(n % 10)]
  }

  predicate AllDigits(s: string) {
    forall c :: c in s ==> IsDigit(c)
  }

  /** The number a digit string denotes, leading zeros allowed. */
  function NumberOf(s: string): nat
    requires AllDigits(s)
  {
    if s == [] then 0
    else NumberOf(s[..|s| - 1]) * 10 + DigitValue(s[|s| - 1])
  }

  lemma {:induction false} NumberOfDecimal(n: nat)
    ensures NumberOf(Decimal(n)) == n
  {
    var s := Decimal(n);
    if n >= 10 {
      NumberOfDecimal(n / 10);
      assert s[..|s| - 1] == Decimal(n / 10);
    } else {
      assert s[..0] == [];
    }
  }

  lemma {:induction false} NoLeadingZero(n: nat)
    ensures Decimal(n)[0] == '0' ==> n == 0
    ensures |Decimal(n)| > 1 ==> n >= 10
  {
    if n >= 10 {
      NoLeadingZero(n / 10);
    }
  }

  lemma DecimalInjective(m: nat, n: nat)
    requires Decimal(m) == Decimal(n)
    ensures m == n
  {
    NumberOfDecimal(m);
    NumberOfDecimal(n);
  }

  /** The longest prefix of digits. */
  function DigitRun(s: string): (r: string)
    ensures AllDigits(r) && |r| <= |s|
  {
    if s == [] || !IsDigit(s[0]) then [] else [s[0]] + DigitRun(s[1..])
  }

  lemma {:induction false} DigitRunOfDigits(s: string, rest: string)
    requires AllDigits(s) && (rest == [] || !IsDigit(rest[0]))
    ensures DigitRun(s + rest) == s
  {
    if s == [] {
      assert s + rest == rest;
    } else {
      assert (s + rest)[1..] == s[1..] + rest;
      assert s == [s[0]] + s[1..];
      DigitRunOfDigits(s[1..], rest);
    }
  }

  predicate IsSpace(c: char) {
    c == ' ' || '\t' <= c <= '\r'
  }

  function SkipSpace(s: string): string {
    if s != [] && IsSpace(s[0]) then SkipSpace(s[1..]) else s
  }

  /** std::stoi: white space, a sign, and the longest run of digits; the rest is ignored. */
  function Stoi(s: string): Result<int> {
    var t := SkipSpace(s);
    var negative := t != [] && t[0] == '-';
    var u := if t != [] && (t[0] == '-' || t[0] == '+') then t[1..] else t;
    var run := DigitRun(u);
    if run == [] then Err(NotANumber)
    else
      var v: int := NumberOf(run);
      var n := if negative then -v else v;
      if -INT_MAX - 1 <= n <= INT_MAX then Ok(n) else Err(NumberOutOfRange)
  }

  // -------------------------------------------------------------------------------------
  // What std::stoi reads
  // -------------------------------------------------------------------------------------

  /** White space, an optional sign, digits, and what no longer belongs to them. */
  datatype Reading = Reading(blanks: string, sign: string, digits: string, rest: string)

  predicate IsReading(r: Reading) {
    && (forall c :: c in r.blanks ==> c as int in {0x20, 0x09, 0x0a, 0x0b, 0x0c, 0x0d})
    && r.sign in {"", "+", "-"} && r.digits != "" && AllDigits(r.digits)
    && (r.rest != "" ==> !IsDigit(r.rest[0]))
  }

  function Whole(r: Reading): string {
    r.blanks + (r.sign + (r.digits + r.rest))
  }

  function Signed(r: Reading): int
    requires AllDigits(r.digits)
  {
    var n: int := NumberOf(r.digits);
    if r.sign == "-" then -n else n
  }

  lemma {:induction false} SpaceSkipped(w: string, t: string)
    requires (forall c :: c in w ==> IsSpace(c)) && (t != "" ==> !IsSpace(t[0]))
    ensures SkipSpace(w + t) == t
  {
    if w == "" {
      assert w + t == t;
    } else {
      assert w[0] in w && (w + t)[1..] == w[1..] + t && forall c :: c in w[1..] ==> c in w;
      SpaceSkipped(w[1..], t);
    }
  }

  lemma {:induction false} SpaceFound(s: string) returns (w: string)
    ensures (forall c :: c in w ==> IsSpace(c)) && s == w + SkipSpace(s)
  {
    if s != "" && IsSpace(s[0]) {
      var v := SpaceFound(s[1..]);
      w := [s[0]] + v;
      assert s == [s[0]] + s[1..];
      assert [s[0]] + v + SkipSpace(s) == [s[0]] + (v + SkipSpace(s));
    } else {
      w := "";
      assert "" + s == s;
    }
  }

  lemma {:induction false} RunSplits(s: string)
    ensures s == DigitRun(s) + s[|DigitRun(s)|..]
    ensures s[|DigitRun(s)|..] != [] ==> !IsDigit(s[|DigitRun(s)|])
  {
    if s != [] && IsDigit(s[0]) {
      RunSplits(s[1..]);
    }
  }

  lemma SignSkipped(r: Reading)
    requires IsReading(r)
    ensures var t := r.sign + (r.digits + r.rest);
      && t != "" && !IsSpace(t[0]) && (t[0] == '-' <==> r.sign == "-")
      && (if t[0] in {'-', '+'} then t[1..] else t) == r.digits + r.rest
  {
    assert r.digits[0] in r.digits && IsDigit(r.digits[0]);
    assert r.sign == "" ==> r.sign + (r.digits + r.rest) == r.digits + r.rest;
    assert r.sign != "" ==> (r.sign + (r.digits + r.rest))[1..] == r.digits + r.rest;
  }

  /** std::stoi reads the number that a text begins with, or reports that int does not hold it. */
  lemma StoiReads(r: Reading)
    requires IsReading(r)
    ensures Stoi(Whole(r)) == if -INT_MAX - 1 <= Signed(r) <= INT_MAX then Ok(Signed(r)) else Err(NumberOutOfRange)
  {
    SignSkipped(r);
    SpaceSkipped(r.blanks, r.sign + (r.digits + r.rest));
    DigitRunOfDigits(r.digits, r.rest);
  }

  /** And it reports that there is none only where none is. */
  lemma StoiFinds(s: string) returns (r: Reading)
    requires Stoi(s) != Err(NotANumber)
    ensures IsReading(r) && s == Whole(r)
  {
    var w := SpaceFound(s);
    var t := SkipSpace(s);
    var sign := if t != [] && (t[0] == '-' || t[0] == '+') then t[..1] else "";
    var u := t[|sign|..];
    RunSplits(u);
    assert u[|DigitRun(u)|..] != "" ==> u[|DigitRun(u)|..][0] == u[|DigitRun(u)|];
    r := Reading(w, sign, DigitRun(u), u[|DigitRun(u)|..]);
    assert t == sign + u && sign in {"", "+", "-"} by {
      assert t != [] ==> t[..1] == [t[0]];
    }
  }

  /** Array indices survive the way through text up to INT_MAX, and are refused beyond. */
  lemma StoiOfDecimal(n: nat)
    ensures Stoi(Decimal(n)) == if n <= INT_MAX then Ok(n) else Err(NumberOutOfRange)
  {
    var r := Reading("", "", Decimal(n), "");
    assert Whole(r) == Decimal(n);
    StoiReads(r);
    NumberOfDecimal(n);
  }
}
