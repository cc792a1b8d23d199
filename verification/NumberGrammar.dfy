/**
 The numbers of JSON (section 6 of RFC 7159), and that they are what the automaton finds.
 */
module NumberGrammar {
  import opened JsonScan
  import opened Numerals
  import opened JsonNumber
  import opened Sequences

  /** [ minus ] int [ frac ] [ exp ]; the fraction is without its point, the exponent is a mark, a sign and digits. */
  datatype Numeral = Numeral(minus: bool, whole: string, fraction: string, mark: string, sign: string, exponent: string)

  predicate IsNumeral(n: Numeral) {
    && AllDigits(n.whole) && n.whole != "" && (n.whole[0] == '0' ==> n.whole == "0")
    && AllDigits(n.fraction)
    && n.mark in {"", "e", "E"} && n.sign in {"", "+", "-"} && AllDigits(n.exponent)
    && (n.mark == "" <==> n.exponent == "") && (n.mark == "" ==> n.sign == "")
  }

  function Spelled(n: Numeral): string {
    (if n.minus then "-" else "") + (n.whole + Behind(n))
  }

  /** What stands behind the integer part. */
  function Behind(n: Numeral): string {
    (if n.fraction == "" then "" else "." + n.fraction) + (n.mark + (n.sign + n.exponent))
  }

  predicate IsFraction(n: Numeral) {
    n.fraction != "" || n.mark != ""
  }

  function TypeOf(n: Numeral): NumberType {
    if IsFraction(n) then TFloat else if n.minus then TInteger else TUnsigned
  }

  /** Nothing follows that would have to belong to the number. */
  predicate Stops(n: Numeral, rest: string) {
    rest != [] ==>
      && (IsDigit(rest[0]) ==> n.whole == "0" && !IsFraction(n))
      && (rest[0] == '.' ==> IsFraction(n))
      && (rest[0] in {'e', 'E'} ==> n.mark != "")
  }

  // -------------------------------------------------------------------------------------
  // The states
  // -------------------------------------------------------------------------------------

  /** The number that begins with some characters and goes on as r. */
  function Before(x: string, r: Scanned<Number>): Scanned<Number> {
    if r.Malformed? then r else Scanned(r.value.(text := x + r.value.text), r.rest)
  }

  lemma LongerBefore(c: char, x: string, r: Scanned<Number>)
    ensures Longer(c, Before(x, r)) == Before([c] + x, r) && Longer(c, r) == Before([c], r) && Before("", r) == r
  {
    if r.Scanned? {
      Associates([c], x, r.value.text);
      Unpadded(r.value.text);
    }
  }

  /** In the states that loop over digits the run is read. */
  lemma {:induction false} RunScanned(st: State, t: NumberType, s: string)
    requires st in {Any1, Decimal2, Any2}
    ensures ScanFrom(st, t, s) == Before(DigitRun(s), ScanFrom(st, t, s[|DigitRun(s)|..]))
    decreases |s|
  {
    if s != [] && IsDigit(s[0]) {
      RunScanned(st, t, s[1..]);
      assert s[1..][|DigitRun(s[1..])|..] == s[|DigitRun(s)|..];
      LongerBefore(s[0], DigitRun(s[1..]), ScanFrom(st, t, s[|DigitRun(s)|..]));
    } else {
      LongerBefore('0', "", ScanFrom(st, t, s));
      assert s[0..] == s;
    }
  }

  lemma ExponentDigits(st: State, t: NumberType, s: string)
    requires st in {Sign, Any2}
    ensures ScanFrom(st, t, s) == if st == Sign && DigitRun(s) == "" then Malformed
      else Scanned(Number(DigitRun(s), t), s[|DigitRun(s)|..])
  {
    RunSplits(s);
    if st == Any2 {
      RunScanned(Any2, t, s);
      Unpadded(DigitRun(s));
    } else if DigitRun(s) != "" {
      RunScanned(Any2, t, s);
      RunScanned(Any2, t, s[1..]);
      Unpadded(DigitRun(s));
      Unpadded(DigitRun(s[1..]));
      assert s[1..][|DigitRun(s[1..])|..] == s[|DigitRun(s)|..];
    }
  }

  function SignOf(s: string): string {
    if s != [] && s[0] in {'+', '-'} then [s[0]] else ""
  }

  /** Behind the mark. */
  lemma ExponentScanned(t: NumberType, s: string)
    ensures var sign := SignOf(s); var digits := DigitRun(s[|sign|..]);
      ScanFrom(Exponent, t, s) ==
        if digits == "" then Malformed else Scanned(Number(sign + digits, t), s[|sign| + |digits|..])
  {
    var sign := SignOf(s);
    if sign == "" {
      assert s[0..] == s;
      Unpadded(DigitRun(s));
      ExponentDigits(Sign, t, s);
      assert s != [] ==> MoveOn(Exponent, s[0]) == MoveOn(Sign, s[0]);
    } else {
      ExponentDigits(Sign, t, s[1..]);
    }
  }

  // -------------------------------------------------------------------------------------
  // Every numeral is scanned
  // -------------------------------------------------------------------------------------

  lemma ExponentRead(t: NumberType, sign: string, digits: string, rest: string)
    requires sign in {"", "+", "-"} && AllDigits(digits) && digits != "" && (rest != [] ==> !IsDigit(rest[0]))
    ensures ScanFrom(Exponent, t, sign + digits + rest) == Scanned(Number(sign + digits, t), rest)
  {
    var s := sign + digits + rest;
    assert digits[0] in digits && IsDigit(digits[0]);
    assert s[0] == if sign == "" then digits[0] else sign[0];
    assert SignOf(s) == sign;
    assert s[|sign|..] == digits + rest;
    DigitRunOfDigits(digits, rest);
    assert s[|sign| + |digits|..] == rest;
    ExponentScanned(t, s);
  }

  /** The states in which the digits so far can stand alone. */
  predicate CanEnd(st: State) {
    st in {Zero, Any1, Decimal2}
  }

  /** Nothing or an exponent, behind digits. */
  lemma MarkRead(st: State, t: NumberType, mark: string, sign: string, digits: string, rest: string)
    requires CanEnd(st) && mark in {"", "e", "E"} && sign in {"", "+", "-"} && AllDigits(digits)
    requires (mark == "" <==> digits == "") && (mark == "" ==> sign == "")
    requires rest != [] && IsDigit(rest[0]) ==> st == Zero && mark == ""
    requires rest != [] && mark == "" ==> rest[0] !in {'e', 'E'} && (rest[0] == '.' ==> st == Decimal2)
    ensures ScanFrom(st, t, mark + (sign + digits) + rest) ==
      Scanned(Number(mark + (sign + digits), if mark == "" then t else TFloat), rest)
  {
    var s := mark + (sign + digits) + rest;
    if mark == "" {
      assert s == rest;
    } else {
      assert s[0] == mark[0] && s[1..] == sign + digits + rest;
      ExponentRead(TFloat, sign, digits, rest);
      ExponentBegins(st, t, s);
      assert [mark[0]] + (sign + digits) == mark + (sign + digits);
    }
  }

  lemma ExponentBegins(st: State, t: NumberType, s: string)
    requires CanEnd(st) && s != [] && s[0] in {'e', 'E'}
    ensures ScanFrom(st, t, s) == Before([s[0]], ScanFrom(Exponent, TFloat, s[1..]))
  {
    LongerBefore(s[0], "", ScanFrom(Exponent, TFloat, s[1..]));
  }

  /** Behind a decimal point. */
  lemma PointRead(t: NumberType, fraction: string, x: string, n: string, rest: string)
    requires AllDigits(fraction) && fraction != "" && (x != [] ==> !IsDigit(x[0]))
    requires ScanFrom(Decimal2, t, x) == Scanned(Number(n, t), rest)
    ensures ScanFrom(Decimal1, t, fraction + x) == Scanned(Number(fraction + n, t), rest)
  {
    var s := fraction + x;
    assert fraction[0] in fraction && IsDigit(fraction[0]) && s[0] == fraction[0];
    DigitRunOfDigits(fraction, x);
    RunScanned(Decimal2, t, s);
    assert s[|fraction|..] == x;
    FirstDigit(t, s);
  }

  /** A first digit leads to the loop over digits, as the loop itself would. */
  lemma FirstDigit(t: NumberType, s: string)
    requires s != [] && IsDigit(s[0])
    ensures ScanFrom(Decimal1, t, s) == ScanFrom(Decimal2, t, s)
  {
  }

  lemma BehindRead(st: State, t: NumberType, n: Numeral, rest: string)
    requires IsNumeral(n) && Stops(n, rest) && st == if n.whole == "0" then Zero else Any1
    ensures ScanFrom(st, t, Behind(n) + rest) == Scanned(Number(Behind(n), if IsFraction(n) then TFloat else t), rest)
  {
    var tail := n.mark + (n.sign + n.exponent);
    if n.fraction == "" {
      assert Behind(n) == tail;
      MarkRead(st, t, n.mark, n.sign, n.exponent, rest);
    } else {
      MarkRead(Decimal2, TFloat, n.mark, n.sign, n.exponent, rest);
      assert tail + rest != [] ==> (tail + rest)[0] == if n.mark == "" then rest[0] else n.mark[0];
      PointRead(TFloat, n.fraction, tail + rest, tail, rest);
      PointFirst(st, t, n.fraction, tail, rest);
    }
  }

  lemma PointFirst(st: State, t: NumberType, fraction: string, tail: string, rest: string)
    requires st in {Zero, Any1}
    requires ScanFrom(Decimal1, TFloat, fraction + (tail + rest)) == Scanned(Number(fraction + tail, TFloat), rest)
    ensures ScanFrom(st, t, "." + fraction + tail + rest) == Scanned(Number("." + fraction + tail, TFloat), rest)
  {
    var s := "." + fraction + tail + rest;
    assert s[0] == '.' && s[1..] == fraction + (tail + rest);
    assert ['.'] + (fraction + tail) == "." + fraction + tail;
  }

  lemma ZeroRead(minus: bool, n: Numeral, rest: string, x: string)
    requires IsNumeral(n) && Stops(n, rest) && n.whole == "0" && x == Behind(n) + rest
    ensures var t, s := if minus then TInteger else TUnsigned, ['0'] + x;
      var r := Scanned(Number(['0'] + Behind(n), if IsFraction(n) then TFloat else t), rest);
      if minus then ScanFrom(Minus, TInteger, s) == r else ScanNumber(s) == r
  {
    BehindRead(Zero, if minus then TInteger else TUnsigned, n, rest);
    assert (['0'] + x)[1..] == x;
  }

  lemma DigitsRead(minus: bool, n: Numeral, rest: string, digits: string, x: string)
    requires IsNumeral(n) && Stops(n, rest) && n.whole != "0" && x == Behind(n) + rest && digits == n.whole[1..]
    ensures var t, s := if minus then TInteger else TUnsigned, [n.whole[0]] + (digits + x);
      var r := Scanned(Number([n.whole[0]] + (digits + Behind(n)), if IsFraction(n) then TFloat else t), rest);
      IsDigit(n.whole[0]) && if minus then ScanFrom(Minus, TInteger, s) == r else ScanNumber(s) == r
  {
    var t, s := if minus then TInteger else TUnsigned, [n.whole[0]] + (digits + x);
    BehindRead(Any1, t, n, rest);
    BehindFirst(n, rest);
    DigitRunOfDigits(digits, x);
    RunScanned(Any1, t, digits + x);
    assert (digits + x)[|digits|..] == x && s[1..] == digits + x;
    assert n.whole[0] in n.whole;
  }

  /** From the first digit on. */
  lemma WholeRead(minus: bool, n: Numeral, rest: string)
    requires IsNumeral(n) && Stops(n, rest)
    ensures var t, s := if minus then TInteger else TUnsigned, n.whole + Behind(n) + rest;
      var r := Scanned(Number(n.whole + Behind(n), if IsFraction(n) then TFloat else t), rest);
      (minus ==> ScanFrom(Minus, TInteger, s) == r) && (!minus ==> s != [] && BeginsNumber(s[0]) && ScanNumber(s) == r)
  {
    var x := Behind(n) + rest;
    if n.whole == "0" {
      ZeroRead(minus, n, rest, x);
      assert "0" + Behind(n) + rest == ['0'] + x && "0" + Behind(n) == ['0'] + Behind(n);
    } else {
      DigitsRead(minus, n, rest, n.whole[1..], x);
      WholeParts(n.whole, Behind(n), rest);
    }
  }

  lemma WholeParts(whole: string, behind: string, rest: string)
    requires whole != ""
    ensures whole + behind + rest == [whole[0]] + (whole[1..] + (behind + rest))
    ensures whole + behind == [whole[0]] + (whole[1..] + behind)
  {
  }

  lemma BehindFirst(n: Numeral, rest: string)
    requires IsNumeral(n) && Stops(n, rest) && n.whole != "0"
    ensures var x := Behind(n) + rest; x != [] ==> !IsDigit(x[0])
  {
    var x := Behind(n) + rest;
    if x != [] {
      assert x[0] == if n.fraction != "" then '.' else if n.mark != "" then n.mark[0] else rest[0];
    }
  }

  /** A numeral that nothing continues is scanned as it is. */
  lemma NumeralScanned(n: Numeral, rest: string)
    requires IsNumeral(n) && Stops(n, rest)
    ensures var s := Spelled(n) + rest;
      s != [] && BeginsNumber(s[0]) && ScanNumber(s) == Scanned(Number(Spelled(n), TypeOf(n)), rest)
  {
    WholeRead(n.minus, n, rest);
    var s := Spelled(n) + rest;
    if n.minus {
      assert s[0] == '-' && s[1..] == n.whole + Behind(n) + rest;
    } else {
      assert Spelled(n) == n.whole + Behind(n);
    }
  }

  // -------------------------------------------------------------------------------------
  // Nothing else is scanned
  // -------------------------------------------------------------------------------------

  /** What stands behind digits that can end a number, where it is scanned at all. */
  lemma MarkFound(st: State, t: NumberType, s: string) returns (mark: string, sign: string, digits: string)
    requires CanEnd(st) && ScanFrom(st, t, s).Scanned?
    requires s != [] ==> s[0] != '.' || st == Decimal2
    requires s != [] && IsDigit(s[0]) ==> st == Zero
    ensures mark in {"", "e", "E"} && sign in {"", "+", "-"} && AllDigits(digits)
    ensures (mark == "" <==> digits == "") && (mark == "" ==> sign == "")
    ensures var r := ScanFrom(st, t, s);
      && s == mark + (sign + digits) + r.rest && r.value == Number(mark + (sign + digits), if mark == "" then t else TFloat)
      && (r.rest != [] ==> (IsDigit(r.rest[0]) ==> mark == "" && st == Zero) && (r.rest[0] in {'e', 'E'} ==> mark != ""))
      && (mark == "" ==> r.rest == s)
  {
    if s != [] && s[0] in {'e', 'E'} {
      mark := [s[0]];
      sign, digits := ExponentFound(s[1..]);
      assert s == mark + s[1..];
      MarkJoined(mark, sign + digits, ScanFrom(Exponent, TFloat, s[1..]).rest);
    } else {
      mark, sign, digits := "", "", "";
      assert mark + (sign + digits) == "";
    }
  }

  lemma MarkJoined(mark: string, x: string, rest: string)
    ensures mark + (x + rest) == mark + x + rest
  {
  }

  lemma ExponentFound(s: string) returns (sign: string, digits: string)
    requires ScanFrom(Exponent, TFloat, s).Scanned?
    ensures sign in {"", "+", "-"} && AllDigits(digits) && digits != ""
    ensures var r := ScanFrom(Exponent, TFloat, s);
      s == sign + digits + r.rest && r.value == Number(sign + digits, TFloat) && (r.rest != [] ==> !IsDigit(r.rest[0]))
  {
    ExponentScanned(TFloat, s);
    sign := SignOf(s);
    var x := s[|sign|..];
    digits := DigitRun(x);
    RunSplits(x);
    assert s == sign + x && x[|digits|..] == s[|sign| + |digits|..];
    MarkJoined(sign, digits, x[|digits|..]);
  }

  lemma BehindFound(st: State, t: NumberType, s: string, minus: bool, whole: string) returns (n: Numeral)
    requires st == (if whole == "0" then Zero else Any1) && (s != [] && IsDigit(s[0]) ==> st == Zero)
    requires AllDigits(whole) && whole != "" && (whole[0] == '0' ==> whole == "0")
    requires ScanFrom(st, t, s).Scanned?
    ensures IsNumeral(n) && n.minus == minus && n.whole == whole
    ensures var r := ScanFrom(st, t, s);
      s == Behind(n) + r.rest && r.value == Number(Behind(n), if IsFraction(n) then TFloat else t) && Stops(n, r.rest)
  {
    if s != [] && s[0] == '.' {
      n := PointFound(st, t, s, minus, whole);
    } else {
      var mark, sign, digits := MarkFound(st, t, s);
      n := Numeral(minus, whole, "", mark, sign, digits);
      assert Behind(n) == mark + (sign + digits);
    }
  }

  lemma PointFound(st: State, t: NumberType, s: string, minus: bool, whole: string) returns (n: Numeral)
    requires st == (if whole == "0" then Zero else Any1) && s != [] && s[0] == '.'
    requires AllDigits(whole) && whole != "" && (whole[0] == '0' ==> whole == "0")
    requires ScanFrom(st, t, s).Scanned?
    ensures IsNumeral(n) && n.minus == minus && n.whole == whole && n.fraction != ""
    ensures var r := ScanFrom(st, t, s);
      s == Behind(n) + r.rest && r.value == Number(Behind(n), TFloat) && Stops(n, r.rest)
  {
    var r := ScanFrom(Decimal1, TFloat, s[1..]);
    var fraction, mark, sign, digits := FractionFound(s[1..]);
    n := Numeral(minus, whole, fraction, mark, sign, digits);
    assert s == ['.'] + s[1..];
    PointJoined(fraction, mark + (sign + digits), r.rest);
  }

  lemma FractionFound(x: string) returns (fraction: string, mark: string, sign: string, digits: string)
    requires ScanFrom(Decimal1, TFloat, x).Scanned?
    ensures AllDigits(fraction) && fraction != ""
    ensures mark in {"", "e", "E"} && sign in {"", "+", "-"} && AllDigits(digits)
    ensures (mark == "" <==> digits == "") && (mark == "" ==> sign == "")
    ensures var r, tail := ScanFrom(Decimal1, TFloat, x), mark + (sign + digits);
      && x == fraction + (tail + r.rest) && r.value == Number(fraction + tail, TFloat)
      && (r.rest != [] ==> !IsDigit(r.rest[0]) && (r.rest[0] in {'e', 'E'} ==> mark != ""))
  {
    FirstDigit(TFloat, x);
    RunScanned(Decimal2, TFloat, x);
    RunSplits(x);
    fraction := DigitRun(x);
    var y := x[|fraction|..];
    assert y != [] ==> y[0] == x[|fraction|];
    mark, sign, digits := MarkFound(Decimal2, TFloat, y);
  }

  lemma PointJoined(fraction: string, tail: string, rest: string)
    ensures ['.'] + (fraction + (tail + rest)) == "." + fraction + tail + rest
    ensures ['.'] + (fraction + tail) == "." + fraction + tail
  {
  }

  lemma DigitsFound(minus: bool, t: NumberType, c: char, x: string) returns (n: Numeral)
    requires IsDigit(c) && c != '0' && ScanFrom(Any1, t, x).Scanned?
    ensures IsNumeral(n) && n.minus == minus
    ensures var r := Longer(c, ScanFrom(Any1, t, x));
      && [c] + x == n.whole + Behind(n) + r.rest && Stops(n, r.rest)
      && r.value == Number(n.whole + Behind(n), if IsFraction(n) then TFloat else t)
  {
    var digits := DigitRun(x);
    RunScanned(Any1, t, x);
    RunSplits(x);
    var whole, y := [c] + digits, x[|digits|..];
    assert whole[0] == c && (y != [] ==> y[0] == x[|digits|]);
    n := BehindFound(Any1, t, y, minus, whole);
    WholeJoined(c, digits, Behind(n), ScanFrom(Any1, t, y).rest);
  }

  lemma WholeFound(minus: bool, s: string) returns (n: Numeral)
    requires if minus then ScanFrom(Minus, TInteger, s).Scanned? else s != [] && IsDigit(s[0]) && ScanNumber(s).Scanned?
    ensures IsNumeral(n) && n.minus == minus
    ensures var r := if minus then ScanFrom(Minus, TInteger, s) else ScanNumber(s);
      && s == n.whole + Behind(n) + r.rest && Stops(n, r.rest)
      && r.value == Number(n.whole + Behind(n), if IsFraction(n) then TFloat else if minus then TInteger else TUnsigned)
  {
    var t := if minus then TInteger else TUnsigned;
    assert s == [s[0]] + s[1..];
    if s[0] == '0' {
      n := BehindFound(Zero, t, s[1..], minus, "0");
      assert ['0'] + Behind(n) == "0" + Behind(n);
    } else {
      n := DigitsFound(minus, t, s[0], s[1..]);
    }
  }

  lemma WholeJoined(c: char, digits: string, behind: string, rest: string)
    ensures [c] + (digits + (behind + rest)) == [c] + digits + behind + rest
    ensures [c] + (digits + behind) == [c] + digits + behind
  {
  }

  /** Whatever is scanned is a numeral, and nothing that follows would have to belong to it. */
  lemma ScannedIsNumeral(s: string) returns (n: Numeral)
    requires s != [] && BeginsNumber(s[0]) && ScanNumber(s).Scanned?
    ensures IsNumeral(n) && Stops(n, ScanNumber(s).rest)
    ensures s == Spelled(n) + ScanNumber(s).rest && ScanNumber(s).value == Number(Spelled(n), TypeOf(n))
  {
    if s[0] == '-' {
      n := WholeFound(true, s[1..]);
      MinusFound(s, n, ScanFrom(Minus, TInteger, s[1..]));
    } else {
      n := WholeFound(false, s);
    }
  }

  lemma MinusFound(s: string, n: Numeral, r: Scanned<Number>)
    requires s != [] && s[0] == '-' && n.minus && r.Scanned? && s[1..] == n.whole + Behind(n) + r.rest
    requires r == ScanFrom(Minus, TInteger, s[1..]) && r.value.text == n.whole + Behind(n)
    ensures s == Spelled(n) + ScanNumber(s).rest
    ensures ScanNumber(s).value == Number(Spelled(n), r.value.numberType) && ScanNumber(s).rest == r.rest
  {
    assert s == ['-'] + s[1..];
    MinusJoined(n.whole + Behind(n), r.rest);
  }

  lemma MinusJoined(x: string, rest: string)
    ensures ['-'] + (x + rest) == "-" + x + rest && "-" + x == ['-'] + x
  {
  }

  /** A number is scanned exactly where a numeral stands that nothing continues. */
  lemma ScansNumerals(s: string)
    requires s != [] && BeginsNumber(s[0])
    ensures ScanNumber(s).Scanned? <==>
      exists n, rest :: IsNumeral(n) && Stops(n, rest) && s == Spelled(n) + rest
  {
    if ScanNumber(s).Scanned? {
      var n := ScannedIsNumeral(s);
    }
    if n, rest :| IsNumeral(n) && Stops(n, rest) && s == Spelled(n) + rest {
      NumeralScanned(n, rest);
    }
  }
}
