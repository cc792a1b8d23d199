/**
 Numbers in text: writing integers and scanning number tokens.
 */
module JsonNumber {
  import opened JsonScan
  import opened Numerals
  import opened Reversal

  // -------------------------------------------------------------------------------------
  // Writing
  // -------------------------------------------------------------------------------------

  function IntegerText(x: int): string {
    if x < 0 then "-" + Decimal(-x) else Decimal(x)
  }

  /** C++ division and remainder round towards zero. */
  function DivTen(x: int): int {
    if x < 0 then -(-x / 10) else x / 10
  }

  function ModTen(x: int): int {
    if x < 0 then -(-x % 10) else x % 10
  }

  function Abs(x: int): nat {
    if x < 0 then -x else x
  }

  function Pow10(k: nat): nat {
    if k == 0 then 1 else 10 * Pow10(k - 1)
  }

  lemma {:induction false} DecimalLength(n: nat, k: nat)
    requires n < Pow10(k) && k > 0
    ensures |Decimal(n)| <= k
    decreases n
  {
    assert Pow10(1) == 10;
    if n >= 10 && k > 1 {
      DecimalLength(n / 10, k - 1);
    }
  }

  /** 64-bit integers have at most 20 digits. */
  lemma TwentyDigits(n: nat)
    requires n < 0x1_0000_0000_0000_0000
    ensures |Decimal(n)| <= 20
  {
    assert Pow10(4) == 10000;
    assert Pow10(8) == 1_0000_0000;
    assert Pow10(12) == 1_0000_0000_0000;
    assert Pow10(16) == 1_0000_0000_0000_0000;
    assert Pow10(20) == 1_0000_0000_0000_0000_0000;
    DecimalLength(n, 20);
  }

  /** The digits that are still to be produced. */
  function DigitsLeft(n: nat): string {
    if n == 0 then [] else Decimal(n)
  }

  lemma DigitStep(n: nat, done: string)
    requires n > 0
    ensures DigitsLeft(n) + Reversed(done) == DigitsLeft(n / 10) + Reversed(done + [Digit(n % 10)])
  {
    ReversedAppend(done, Digit(n % 10));
    assert DigitsLeft(n) == DigitsLeft(n / 10) + [Digit(n % 10)];
    assert DigitsLeft(n / 10) + [Digit(n % 10)] + Reversed(done) == DigitsLeft(n / 10) + ([Digit(n % 10)] + Reversed(done));
  }

  /** The digits of a nonzero number, the last one first. */
  method ProduceDigits(x: int, buffer: array<char>) returns (i: nat)
    requires x != 0 && -0x8000_0000_0000_0000 <= x < 0x1_0000_0000_0000_0000 && buffer.Length == 64
    modifies buffer
    ensures i <= 20 && Reversed(buffer[..i]) == Decimal(Abs(x))
  {
    var rest := x;
    i := 0;
    ghost var all := Decimal(Abs(x));
    TwentyDigits(Abs(x));
    assert buffer[..0] == [] && all + [] == all;
    while rest != 0 && i < 63
      invariant 0 <= i <= 20 && (x < 0 ==> rest <= 0) && (x > 0 ==> rest >= 0)
      invariant all == DigitsLeft(Abs(rest)) + Reversed(buffer[..i])
      decreases Abs(rest)
    {
      DigitStep(Abs(rest), buffer[..i]);
      ghost var done := buffer[..i];
      buffer[i] := Digit(Abs(ModTen(rest)));
      assert buffer[..i + 1] == done + [Digit(Abs(rest) % 10)];
      i := i + 1;
      rest := DivTen(rest);
    }
    assert [] + Reversed(buffer[..i]) == Reversed(buffer[..i]);
  }

  /** dump_integer: the digits and the sign are reversed in the buffer. */
  method DumpInteger(x: int) returns (out: string)
    requires -0x8000_0000_0000_0000 <= x < 0x1_0000_0000_0000_0000
    ensures out == IntegerText(x)
  {
    if x == 0 {
      return "0";
    }
    var buffer := new char[64](_ => '0');
    var i := ProduceDigits(x, buffer);
    if x < 0 {
      ghost var digits := buffer[..i];
      buffer[i] := '-';
      assert buffer[..i + 1] == digits + ['-'];
      ReversedAppend(digits, '-');
      i := i + 1;
    }
    ReversePrefix(buffer, i);
    return buffer[..i];
  }

  // -------------------------------------------------------------------------------------
  // Scanning
  // -------------------------------------------------------------------------------------

  /** The states of scan_number behind its first character. */
  datatype State = Minus | Zero | Any1 | Decimal1 | Decimal2 | Exponent | Sign | Any2

  datatype Move = Goto(state: State) | Done | Fail

  function MoveOn(st: State, c: char): Move {
    match st
    case Minus => if c == '0' then Goto(Zero) else if IsDigit(c) then Goto(Any1) else Fail
    case Zero => if c == '.' then Goto(Decimal1) else if c == 'e' || c == 'E' then Goto(Exponent) else Done
    case Any1 =>
      if IsDigit(c) then Goto(Any1)
      else if c == '.' then Goto(Decimal1)
      else if c == 'e' || c == 'E' then Goto(Exponent)
      else Done
    case Decimal1 => if IsDigit(c) then Goto(Decimal2) else Fail
    case Decimal2 => if IsDigit(c) then Goto(Decimal2) else if c == 'e' || c == 'E' then Goto(Exponent) else Done
    case Exponent => if c == '+' || c == '-' then Goto(Sign) else if IsDigit(c) then Goto(Any2) else Fail
    case Sign => if IsDigit(c) then Goto(Any2) else Fail
    case Any2 => if IsDigit(c) then Goto(Any2) else Done
  }

  /** At the end of the input. */
  function MoveAtEnd(st: State): Move {
    if st in {Zero, Any1, Decimal2, Any2} then Done else Fail
  }

  datatype NumberType = TUnsigned | TInteger | TFloat

  /** A minus sign makes the number signed; a decimal point or an exponent makes it a float. */
  function TypeIn(st: State, t: NumberType): NumberType {
    match st
    case Minus => TInteger
    case Decimal1 => TFloat
    case Exponent => TFloat
    case _ => t
  }

  datatype Number = Number(text: string, numberType: NumberType)

  function Longer(c: char, r: Scanned<Number>): Scanned<Number> {
    if r.Malformed? then r else Scanned(r.value.(text := [c] + r.value.text), r.rest)
  }

  /** From a state on; the character that ends the number is not consumed. */
  function ScanFrom(st: State, t: NumberType, s: string): (r: Scanned<Number>)
    ensures r.Scanned? ==> |r.rest| <= |s|
    decreases |s|
  {
    var m := if s == [] then MoveAtEnd(st) else MoveOn(st, s[0]);
    match m
    case Fail => Malformed
    case Done => Scanned(Number("", t), s)
    case Goto(next) => if s == [] then Malformed else Longer(s[0], ScanFrom(next, TypeIn(next, t), s[1..]))
  }

  predicate BeginsNumber(c: char) {
    c == '-' || IsDigit(c)
  }

  function ScanNumber(s: string): (r: Scanned<Number>)
    requires s != [] && BeginsNumber(s[0])
    ensures r.Scanned? ==> |r.rest| < |s|
  {
    if s[0] == '-' then Longer('-', ScanFrom(Minus, TInteger, s[1..]))
    else if s[0] == '0' then Longer('0', ScanFrom(Zero, TUnsigned, s[1..]))
    else Longer(s[0], ScanFrom(Any1, TUnsigned, s[1..]))
  }

  /** Nothing that would continue a number. */
  predicate Delimits(s: string) {
    s != [] ==> !IsDigit(s[0]) && s[0] !in {'.', 'e', 'E'}
  }

  lemma {:induction false} DigitsScanned(s: string, t: NumberType, rest: string)
    requires AllDigits(s) && Delimits(rest)
    ensures ScanFrom(Any1, t, s + rest) == Scanned(Number(s, t), rest)
    decreases |s|
  {
    if s == [] {
      assert s + rest == rest;
    } else {
      assert s[0] in s && (s + rest)[1..] == s[1..] + rest && s == [s[0]] + s[1..];
      DigitsScanned(s[1..], t, rest);
    }
  }

  /** The numeral of a natural number, from the state before its first digit. */
  lemma NumeralScanned(n: nat, rest: string)
    requires Delimits(rest)
    ensures ScanNumber(Decimal(n) + rest) == Scanned(Number(Decimal(n), TUnsigned), rest)
    ensures ScanFrom(Minus, TInteger, Decimal(n) + rest) == Scanned(Number(Decimal(n), TInteger), rest)
  {
    var d := Decimal(n);
    NoLeadingZero(n);
    assert d[0] in d && (d + rest)[1..] == d[1..] + rest && d == [d[0]] + d[1..];
    if d[0] == '0' {
      assert d == "0";
      assert d[1..] + rest == rest;
    } else {
      DigitsScanned(d[1..], TUnsigned, rest);
      DigitsScanned(d[1..], TInteger, rest);
    }
  }

  lemma MinusScanned(d: string, rest: string)
    requires ScanFrom(Minus, TInteger, d + rest) == Scanned(Number(d, TInteger), rest)
    ensures ScanNumber("-" + d + rest) == Scanned(Number("-" + d, TInteger), rest)
  {
    var s := "-" + d + rest;
    assert s[0] == '-' && s[1..] == d + rest;
  }

  /** scan_number reads back what dump_integer wrote, and gives back the character behind it. */
  lemma IntegerScanned(x: int, rest: string)
    requires Delimits(rest)
    ensures IntegerText(x) != [] && BeginsNumber(IntegerText(x)[0])
    ensures ScanNumber(IntegerText(x) + rest) ==
      Scanned(Number(IntegerText(x), if x < 0 then TInteger else TUnsigned), rest)
  {
    NumeralScanned(Abs(x), rest);
    if x < 0 {
      MinusScanned(Decimal(-x), rest);
    } else {
      assert Decimal(x)[0] in Decimal(x);
    }
  }

  lemma {:induction false} DigitsAreUnsigned(st: State, t: NumberType, s: string)
    requires ScanFrom(st, t, s).Scanned? && ScanFrom(st, t, s).value.numberType != TFloat && t != TFloat
    requires st in {Minus, Zero, Any1}
    ensures AllDigits(ScanFrom(st, t, s).value.text)
    ensures ScanFrom(st, t, s).value.numberType == t
    decreases |s|
  {
    var m := if s == [] then MoveAtEnd(st) else MoveOn(st, s[0]);
    if m.Goto? && s != [] {
      if m.state in {Zero, Any1} {
        DigitsAreUnsigned(m.state, t, s[1..]);
      } else {
        FloatsStay(m.state, s[1..]);
      }
    }
  }

  lemma {:induction false} FloatsStay(st: State, s: string)
    requires st in {Decimal1, Decimal2, Exponent, Sign, Any2} && ScanFrom(st, TFloat, s).Scanned?
    ensures ScanFrom(st, TFloat, s).value.numberType == TFloat
    decreases |s|
  {
    var m := if s == [] then MoveAtEnd(st) else MoveOn(st, s[0]);
    if m.Goto? && s != [] {
      FloatsStay(m.state, s[1..]);
    }
  }
}
