/**
 The lexer: the scanner class with its current position and the token buffer, which turns a text into the tokens
 that the parser asks for.
 */
module JsonLex {
  import opened Json
  import opened Utf8
  import opened JsonScan
  import opened Numerals
  import opened JsonNumber
  import opened JsonParse

  // -------------------------------------------------------------------------------------
  // What is scanned
  // -------------------------------------------------------------------------------------

  /** A token, and the input behind it. */
  datatype Lexed = Lexed(token: Token, rest: string)

  predicate IsBlank(c: char) {
    c == ' ' || c == '\t' || c == '\n' || c == '\r'
  }

  function SkipBlanks(s: string): (r: string)
    ensures |r| <= |s| && (r != [] ==> !IsBlank(r[0]))
  {
    if s != [] && IsBlank(s[0]) then SkipBlanks(s[1..]) else s
  }

  function ScanLiteral(s: string, literal: string, token: Token): Lexed {
    if literal <= s then Lexed(token, s[|literal|..]) else Lexed(ParseError, [])
  }

  /** The digits of an integer; the value of any other number is strtod's. */
  predicate IntegerShape(n: Number) {
    match n.numberType
    case TUnsigned => AllDigits(n.text)
    case TInteger => n.text != [] && AllDigits(n.text[1..])
    case TFloat => true
  }

  lemma NumberShape(s: string)
    requires s != [] && BeginsNumber(s[0]) && ScanNumber(s).Scanned?
    ensures IntegerShape(ScanNumber(s).value)
  {
    var n := ScanNumber(s).value;
    if s[0] == '-' {
      if n.numberType != TFloat {
        DigitsAreUnsigned(Minus, TInteger, s[1..]);
        assert n.text[1..] == ScanFrom(Minus, TInteger, s[1..]).value.text;
      }
    } else if n.numberType != TFloat {
      DigitsAreUnsigned(if s[0] == '0' then Zero else Any1, TUnsigned, s[1..]);
    }
  }

  /** Integers that do not fit their 64 bits fall back to floats. */
  function NumberToken(n: Number, toFloat: string -> UInt64): Token
    requires IntegerShape(n)
  {
    match n.numberType
    case TUnsigned =>
      var u := NumberOf(n.text);
      if u < 0x1_0000_0000_0000_0000 then ValueUnsigned(u) else ValueFloat(toFloat(n.text))
    case TInteger =>
      var u: int := NumberOf(n.text[1..]);
      if u <= 0x8000_0000_0000_0000 then ValueInteger(-u) else ValueFloat(toFloat(n.text))
    case TFloat => ValueFloat(toFloat(n.text))
  }

  function ScanNumberToken(s: string, toFloat: string -> UInt64): Lexed
    requires s != [] && BeginsNumber(s[0])
  {
    var r := ScanNumber(s);
    if r.Malformed? then Lexed(ParseError, [])
    else
      NumberShape(s);
      Lexed(NumberToken(r.value, toFloat), r.rest)
  }

  /** The token at the front of a text without leading blanks. */
  function ScanHere(s: string, toFloat: string -> UInt64): Lexed {
    if s == [] then Lexed(EndOfInput, [])
    else
      var c, t := s[0], s[1..];
      if c == '[' then Lexed(BeginArray, t)
      else if c == ']' then Lexed(EndArray, t)
      else if c == '{' then Lexed(BeginObject, t)
      else if c == '}' then Lexed(EndObject, t)
      else if c == ':' then Lexed(NameSeparator, t)
      else if c == ',' then Lexed(ValueSeparator, t)
      else if c == 't' then ScanLiteral(s, "true", LiteralTrue)
      else if c == 'f' then ScanLiteral(s, "false", LiteralFalse)
      else if c == 'n' then ScanLiteral(s, "null", LiteralNull)
      else if c == '"' then
        var r := ScanString(t);
        if r.Malformed? then Lexed(ParseError, []) else Lexed(ValueString(r.value), r.rest)
      else if BeginsNumber(c) then ScanNumberToken(s, toFloat)
      else if c as int == 0 then Lexed(EndOfInput, [])
      else Lexed(ParseError, [])
  }

  function Scan(s: string, toFloat: string -> UInt64): Lexed {
    ScanHere(SkipBlanks(s), toFloat)
  }

  lemma {:induction false} ScanShrinks(s: string, toFloat: string -> UInt64)
    ensures Scan(s, toFloat).token in {EndOfInput, ParseError} || |Scan(s, toFloat).rest| < |s|
  {
  }

  /** All tokens up to the end or the first error. */
  function Tokens(s: string, toFloat: string -> UInt64): Stream
    decreases |s|
  {
    var l := Scan(s, toFloat);
    ScanShrinks(s, toFloat);
    if l.token == EndOfInput then [EndOfInput]
    else if l.token == ParseError then [ParseError, EndOfInput]
    else [l.token] + Tokens(l.rest, toFloat)
  }

  // -------------------------------------------------------------------------------------
  // The lexer object
  // -------------------------------------------------------------------------------------

  const EOF := -1

  datatype Progress = Closed | Rejected | Added

  class Lexer {
    const toFloat: string -> UInt64
    /** What the input adapter has still to deliver. */
    var ahead: string
    var current: int
    var nextUnget: bool
    var yytext: string

    constructor (input: string, toFloat: string -> UInt64)
      ensures Valid() && Rest() == input && this.toFloat == toFloat
    {
      this.ahead, this.toFloat := input, toFloat;
      current, nextUnget, yytext := EOF, false, [];
    }

    ghost predicate Valid()
      reads this
    {
      && (current == EOF || 0 <= current < 0xd800 || 0xe000 <= current < 0x11_0000)
      && (nextUnget && current == EOF ==> ahead == [])
    }

    /** The input that has not been consumed, from a character that was given back on. */
    ghost function Rest(): string
      requires Valid()
      reads this
    {
      if nextUnget && current != EOF then [current as char] + ahead else ahead
    }

    /** The same with the character read last. */
    ghost function Here(): string
      requires Valid() && !nextUnget
      reads this
    {
      if current == EOF then [] else [current as char] + ahead
    }

    method Get()
      requires Valid()
      modifies this`ahead, this`current, this`nextUnget
      ensures Valid() && !nextUnget
      ensures old(Rest()) == [] ==> current == EOF && ahead == []
      ensures old(Rest()) != [] ==> current == old(Rest())[0] as int && ahead == old(Rest())[1..]
    {
      if nextUnget {
        nextUnget := false;
      } else if ahead != [] {
        current := ahead[0] as int;
        ahead := ahead[1..];
      } else {
        current := EOF;
      }
    }

    method GetNext()
      requires Valid()
      modifies this`ahead, this`current, this`nextUnget
      ensures Valid() && !nextUnget && Here() == old(Rest())
    {
      ghost var s := Rest();
      Get();
      assert s != [] ==> s == [s[0]] + s[1..];
    }

    /** Appends the character read last. */
    method Add()
      requires Valid() && current != EOF
      modifies this`yytext
      ensures yytext == old(yytext) + [current as char]
    {
      yytext := yytext + [current as char];
    }

    // ----- strings -----

    /** A hexadecimal digit, or -1. */
    method GetHexDigit() returns (d: int)
      requires Valid()
      modifies this`ahead, this`current, this`nextUnget
      ensures Valid() && !nextUnget
      ensures var s := old(Rest());
        if s != [] && IsHex(s[0]) then d == HexValue(s[0]) && Rest() == s[1..] else d == -1
    {
      Get();
      if current != EOF && IsHex(current as char) {
        return HexValue(current as char);
      }
      return -1;
    }

    /** get_codepoint: -1 in case of an error. */
    method GetCodepoint() returns (cp: int)
      requires Valid()
      modifies this`ahead, this`current, this`nextUnget
      ensures Valid() && !nextUnget
      ensures match ScanHex4(old(Rest()))
        case Scanned(value, rest) => cp == value && Rest() == rest
        case Malformed => cp == -1
    {
      ghost var s := Rest();
      var d1 := GetHexDigit();
      if d1 == -1 {
        return -1;
      }
      var d2 := GetHexDigit();
      if d2 == -1 {
        return -1;
      }
      var d3 := GetHexDigit();
      if d3 == -1 {
        return -1;
      }
      var d4 := GetHexDigit();
      if d4 == -1 {
        return -1;
      }
      assert s[1..][1..][1..][1..] == s[4..];
      return d1 * 0x1000 + d2 * 0x100 + d3 * 0x10 + d4;
    }

    /** The \u of a second escape. */
    method GetEscapeStart() returns (ok: bool)
      requires Valid()
      modifies this`ahead, this`current, this`nextUnget
      ensures Valid()
      ensures var s := old(Rest());
        (ok <==> |s| >= 2 && s[0] == '\\' && s[1] == 'u') && (ok ==> Rest() == s[2..])
    {
      ghost var s := Rest();
      Get();
      if current != '\\' as int {
        return false;
      }
      Get();
      assert |s| >= 2 ==> s[1..][1..] == s[2..];
      return current == 'u' as int;
    }

    /** The second half of a surrogate pair; -1 in case of an error. */
    method GetLow(high: int) returns (cp: int)
      requires Valid() && 0xd800 <= high <= 0xdbff
      modifies this`ahead, this`current, this`nextUnget
      ensures Valid()
      ensures match ScanLow(high, old(Rest()))
        case Scanned(value, rest) => cp == value && Rest() == rest
        case Malformed => cp == -1
    {
      var ok := GetEscapeStart();
      if !ok {
        return -1;
      }
      var low := GetCodepoint();
      if low == -1 || !(0xdc00 <= low <= 0xdfff) {
        return -1;
      }
      return high * 0x400 + low - 0x35f_dc00;
    }

    /** Behind \u; -1 in case of an error. */
    method GetScalar() returns (cp: int)
      requires Valid()
      modifies this`ahead, this`current, this`nextUnget
      ensures Valid()
      ensures match ScanCode(old(Rest()))
        case Scanned(value, rest) => cp == value && Rest() == rest
        case Malformed => cp == -1
    {
      var codepoint1 := GetCodepoint();
      if codepoint1 == -1 {
        return -1;
      }
      if 0xd800 <= codepoint1 <= 0xdbff {
        cp := GetLow(codepoint1);
        return;
      }
      if 0xdc00 <= codepoint1 <= 0xdfff {
        return -1;
      }
      return codepoint1;
    }

    /** The next byte, when it lies in a range. */
    method GetInRange(lo: int, hi: int) returns (ok: bool)
      requires Valid() && 0 <= lo
      modifies this`ahead, this`current, this`nextUnget, this`yytext
      ensures Valid()
      ensures ok <==> old(Rest()) != [] && lo <= old(Rest())[0] as int <= hi
      ensures ok ==> Rest() == old(Rest())[1..] && yytext == old(yytext) + [old(Rest())[0]]
    {
      Get();
      if lo <= current <= hi {
        Add();
        return true;
      }
      return false;
    }

    /** k bytes: the first one in a range, the others continuation bytes. */
    method GetTailBytes(k: nat, lo: int, hi: int) returns (ok: bool)
      requires Valid() && k > 0 && 0 <= lo
      modifies this`ahead, this`current, this`nextUnget, this`yytext
      ensures Valid()
      ensures var s := old(Rest());
        (ok <==> k <= |s| && lo <= s[0] as int <= hi && forall i :: 1 <= i < k ==> Tail(s[i])) &&
        (ok ==> Rest() == s[k..] && yytext == old(yytext) + s[..k])
    {
      ghost var s, before := Rest(), yytext;
      ok := GetInRange(lo, hi);
      if !ok {
        return;
      }
      var i := 1;
      while i < k
        invariant Valid() && 1 <= i <= k && i <= |s| && lo <= s[0] as int <= hi
        invariant forall n :: 1 <= n < i ==> Tail(s[n])
        invariant Rest() == s[i..] && yytext == before + s[..i]
      {
        ok := GetInRange(0x80, 0xbf);
        if !ok {
          return;
        }
        i := i + 1;
      }
      return true;
    }

    /** The bytes of a character behind its first one, which has been added. */
    method GetTails() returns (ok: bool)
      requires Valid() && current != EOF && !nextUnget
      modifies this`ahead, this`current, this`nextUnget, this`yytext
      ensures Valid()
      ensures var n := CharLength([old(current) as char] + old(Rest()));
        (ok <==> n > 0) && (ok ==> Rest() == old(Rest())[n - 1..] && yytext == old(yytext) + old(Rest())[..n - 1])
    {
      var c := current;
      ghost var s := [c as char] + Rest();
      if c <= 0x7f {
        assert yytext + Rest()[..0] == yytext && Rest()[0..] == Rest();
        ok := true;
      } else if 0xc2 <= c <= 0xdf {
        ok := GetTailBytes(1, 0x80, 0xbf);
      } else if 0xe0 <= c <= 0xef {
        ok := GetTailBytes(2, if c == 0xe0 then 0xa0 else 0x80, if c == 0xed then 0x9f else 0xbf);
      } else if 0xf0 <= c <= 0xf4 {
        ok := GetTailBytes(3, if c == 0xf0 then 0x90 else 0x80, if c == 0xf4 then 0x8f else 0xbf);
      } else {
        ok := false;
      }
    }

    /** Behind \u: the bytes of the code point are added. */
    method GetUnicode() returns (ok: bool)
      requires Valid()
      modifies this`ahead, this`current, this`nextUnget, this`yytext
      ensures Valid()
      ensures match ScanCode(old(Rest()))
        case Scanned(value, rest) => ok && yytext == old(yytext) + Encode(value) && Rest() == rest
        case Malformed => !ok
    {
      var cp := GetScalar();
      if cp == -1 {
        return false;
      }
      yytext := yytext + Encode(cp);
      return true;
    }

    /** Behind a backslash: the character that is meant is added. */
    method GetEscaped() returns (ok: bool, ghost added: string)
      requires Valid()
      modifies this`ahead, this`current, this`nextUnget, this`yytext
      ensures Valid()
      ensures if ok
        then yytext == old(yytext) + added && |Rest()| < |old(Rest())|
             && ScanEscape(old(Rest())) == Prepend(added, ScanString(Rest()))
        else ScanEscape(old(Rest())).Malformed?
    {
      added := [];
      Get();
      if current == EOF {
        return false, added;
      }
      if current == 'u' as int {
        added := if ScanCode(Rest()).Scanned? then Encode(ScanCode(Rest()).value) else [];
        ok := GetUnicode();
        return;
      }
      var c := Unescaped(current as char);
      if c.Malformed? {
        return false, added;
      }
      added := [c.value];
      yytext := yytext + [c.value];
      return true, added;
    }

    /** A character that stands for itself is added. */
    method GetRaw() returns (ok: bool, ghost added: string)
      requires Valid() && !nextUnget && current != EOF
      modifies this`ahead, this`current, this`nextUnget, this`yytext
      ensures Valid()
      ensures var s := [old(current) as char] + old(Rest());
        if ok then yytext == old(yytext) + added && |Rest()| < |s| && ScanRaw(s) == Prepend(added, ScanString(Rest()))
        else ScanRaw(s).Malformed?
    {
      ghost var c, rest, before := current as char, Rest(), yytext;
      ghost var s := [c] + rest;
      ghost var n := CharLength(s);
      Add();
      ok := GetTails();
      added := s[..n];
      if ok {
        SplitChar(c, rest, n, before);
      }
    }

    /** One round of scan_string's loop. */
    method StringChar() returns (r: Progress, ghost added: string)
      requires Valid()
      modifies this`ahead, this`current, this`nextUnget, this`yytext
      ensures Valid()
      ensures var spec := ScanString(old(Rest()));
        match r
        case Closed => spec == Scanned([], Rest()) && yytext == old(yytext)
        case Rejected => spec.Malformed?
        case Added => spec == Prepend(added, ScanString(Rest())) && |Rest()| < |old(Rest())| && yytext == old(yytext) + added
    {
      ghost var s := Rest();
      added := [];
      Get();
      if current == EOF {
        return Rejected, added;
      }
      assert s == [s[0]] + s[1..];
      if current == '"' as int {
        return Closed, added;
      }
      var ok: bool;
      if current == '\\' as int {
        ok, added := GetEscaped();
      } else if current <= 0x1f {
        ok := false;
      } else {
        ok, added := GetRaw();
      }
      r := if ok then Added else Rejected;
    }

    /** scan_string, behind the opening quote. */
    method ScanStringHere() returns (token: Token)
      requires Valid()
      modifies this`ahead, this`current, this`nextUnget, this`yytext
      ensures Valid()
      ensures match ScanString(old(Rest()))
        case Scanned(value, rest) => token == ValueString(value) && Rest() == rest
        case Malformed => token == ParseError
    {
      yytext := [];
      ghost var spec := ScanString(Rest());
      PrependNothing(spec);
      while true
        invariant Valid() && spec == Prepend(yytext, ScanString(Rest()))
        decreases |Rest()|
      {
        ghost var before := yytext;
        var r;
        ghost var added;
        r, added := StringChar();
        match r
        case Closed =>
          assert before + [] == before;
          return ValueString(yytext);
        case Rejected =>
          return ParseError;
        case Added =>
          PrependAgain(before, added, ScanString(Rest()));
      }
    }

    // ----- numbers, literals, tokens -----

    /** One transition of scan_number; the character that ends the number is given back. */
    method NextMove(state: State) returns (m: Move)
      requires Valid()
      modifies this`ahead, this`current, this`nextUnget, this`yytext
      ensures Valid()
      ensures var s := old(Rest());
        && m == (if s == [] then MoveAtEnd(state) else MoveOn(state, s[0]))
        && (m.Goto? ==> s != [] && Rest() == s[1..] && yytext == old(yytext) + [s[0]])
        && (m.Done? ==> Rest() == s && yytext == old(yytext))
    {
      ghost var s := Rest();
      Get();
      m := if current == EOF then MoveAtEnd(state) else MoveOn(state, current as char);
      if m.Done? {
        nextUnget := true;
      } else if m.Goto? {
        Add();
      }
    }

    method WalkNumber(start: State, startType: NumberType) returns (r: Scanned<NumberType>)
      requires Valid()
      modifies this`ahead, this`current, this`nextUnget, this`yytext
      ensures Valid()
      ensures match Prefixed(old(yytext), ScanFrom(start, startType, old(Rest())))
        case Scanned(n, rest) => r.Scanned? && r.value == n.numberType && yytext == n.text && Rest() == rest
        case Malformed => r.Malformed?
    {
      var state, numberType := start, startType;
      ghost var spec := Prefixed(yytext, ScanFrom(state, numberType, Rest()));
      while true
        invariant Valid() && spec == Prefixed(yytext, ScanFrom(state, numberType, Rest()))
        decreases |Rest()|
      {
        ghost var s, before := Rest(), yytext;
        var m := NextMove(state);
        match m
        case Fail =>
          return Malformed;
        case Done =>
          assert before + "" == before;
          return Scanned(numberType, "");
        case Goto(next) =>
          PrefixedStep(before, s[0], ScanFrom(next, TypeIn(next, numberType), s[1..]));
          state, numberType := next, TypeIn(next, numberType);
      }
    }

    /** scan_number, at its first character. */
    method ScanNumberHere() returns (token: Token)
      requires Valid() && current != EOF && !nextUnget && BeginsNumber(current as char)
      modifies this`ahead, this`current, this`nextUnget, this`yytext
      ensures Valid()
      ensures var l := ScanNumberToken([old(current) as char] + old(Rest()), toFloat);
        token == l.token && (token != ParseError ==> Rest() == l.rest)
    {
      ghost var s := [current as char] + Rest();
      assert s[1..] == Rest();
      yytext := [];
      var c := current as char;
      Add();
      assert yytext == [c];
      var r: Scanned<NumberType>;
      if c == '-' {
        r := WalkNumber(Minus, TInteger);
      } else {
        r := WalkNumber(if c == '0' then Zero else Any1, TUnsigned);
      }
      if r.Malformed? {
        return ParseError;
      }
      NumberShape(s);
      return NumberToken(Number(yytext, r.value), toFloat);
    }

    /** scan_literal, at its first character. */
    method ScanLiteralHere(literal: string, t: Token) returns (token: Token)
      requires Valid() && literal != [] && !nextUnget && current == literal[0] as int && t != ParseError
      modifies this`ahead, this`current, this`nextUnget
      ensures Valid()
      ensures var l := ScanLiteral(old(Here()), literal, t);
        token == l.token && (token != ParseError ==> Rest() == l.rest)
    {
      ghost var s := Here();
      PrefixStep(literal, s);
      assert s[1..] == Rest();
      for i := 1 to |literal|
        invariant Valid()
        invariant literal <= s <==> literal[i..] <= Rest()
        invariant literal <= s ==> s[|literal|..] == Rest()[|literal| - i..]
      {
        PrefixStep(literal[i..], Rest());
        assert literal[i..][1..] == literal[i + 1..];
        Get();
        if current != literal[i] as int {
          return ParseError;
        }
      }
      return t;
    }

    /** scan: blanks are skipped, and the next character decides. */
    method ScanToken() returns (token: Token)
      requires Valid()
      modifies this`ahead, this`current, this`nextUnget, this`yytext
      ensures Valid()
      ensures var l := Scan(old(Rest()), toFloat);
        token == l.token && (token !in {ParseError, EndOfInput} ==> Rest() == l.rest)
    {
      ghost var all := SkipBlanks(Rest());
      GetNext();
      while current != EOF && IsBlank(current as char)
        invariant Valid() && !nextUnget && all == SkipBlanks(Here())
        decreases |Here()|
      {
        assert Here()[1..] == Rest();
        GetNext();
      }
      token := TokenHere();
    }

    /** The switch over the current character. */
    method TokenHere() returns (token: Token)
      requires Valid() && !nextUnget
      modifies this`ahead, this`current, this`nextUnget, this`yytext
      ensures Valid()
      ensures var l := ScanHere(old(Here()), toFloat);
        token == l.token && (token !in {ParseError, EndOfInput} ==> Rest() == l.rest)
    {
      if current == EOF {
        return EndOfInput;
      }
      var c := current as char;
      assert ([c] + Rest())[1..] == Rest();
      if c == '[' {
        token := BeginArray;
      } else if c == ']' {
        token := EndArray;
      } else if c == '{' {
        token := BeginObject;
      } else if c == '}' {
        token := EndObject;
      } else if c == ':' {
        token := NameSeparator;
      } else if c == ',' {
        token := ValueSeparator;
      } else if c == 't' {
        token := ScanLiteralHere("true", LiteralTrue);
      } else if c == 'f' {
        token := ScanLiteralHere("false", LiteralFalse);
      } else if c == 'n' {
        token := ScanLiteralHere("null", LiteralNull);
      } else if c == '"' {
        token := ScanStringHere();
      } else if BeginsNumber(c) {
        token := ScanNumberHere();
      } else if c as int == 0 {
        token := EndOfInput;
      } else {
        token := ParseError;
      }
    }
  }

  /** A number with some text in front of it. */
  function Prefixed(p: string, r: Scanned<Number>): Scanned<Number> {
    if r.Malformed? then r else Scanned(r.value.(text := p + r.value.text), r.rest)
  }

  lemma PrefixStep<T>(l: seq<T>, s: seq<T>)
    requires l != []
    ensures l <= s <==> s != [] && s[0] == l[0] && l[1..] <= s[1..]
    ensures l <= s ==> s[|l|..] == s[1..][|l| - 1..]
  {
    if s != [] && s[0] == l[0] && l[1..] <= s[1..] {
      assert l == [l[0]] + l[1..] && s == [s[0]] + s[1..];
    }
  }

  lemma PrefixedStep(p: string, c: char, r: Scanned<Number>)
    ensures Prefixed(p, Longer(c, r)) == Prefixed(p + [c], r)
  {
    if r.Scanned? {
      assert p + ([c] + r.value.text) == p + [c] + r.value.text;
    }
  }

  lemma SplitChar(c: char, rest: string, n: nat, before: string)
    requires 0 < n <= |rest| + 1
    ensures var s := [c] + rest;
      s[n..] == rest[n - 1..] && before + [c] + rest[..n - 1] == before + s[..n]
  {
  }

  lemma PrependNothing(r: Scanned<string>)
    ensures Prepend([], r) == r
  {
    if r.Scanned? {
      assert [] + r.value == r.value;
    }
  }

  lemma PrependAgain(a: string, b: string, r: Scanned<string>)
    ensures Prepend(a, Prepend(b, r)) == Prepend(a + b, r)
  {
    if r.Scanned? {
      assert a + (b + r.value) == a + b + r.value;
    }
  }
}
