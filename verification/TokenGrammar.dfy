/**
 The tokens of a JSON text (sections 2 to 7 of RFC 7159), and that they are what the lexer finds.
 */
module TokenGrammar {
  import opened Json
  import opened JsonScan
  import opened Numerals
  import opened JsonNumber
  import opened JsonLex
  import opened JsonParse
  import opened Sequences
  import NumberGrammar
  import StringGrammar

  // -------------------------------------------------------------------------------------
  // The grammar
  // -------------------------------------------------------------------------------------

  /** Space, horizontal tab, line feed and carriage return. */
  predicate Blanks(w: string) {
    forall c :: c in w ==> c as int in {0x20, 0x09, 0x0a, 0x0d}
  }

  /** Integers that fit their 64 bits keep their value; every other number is the float that strtod makes of it. */
  predicate Worth(n: NumberGrammar.Numeral, token: Token, f: string -> UInt64)
    requires NumberGrammar.IsNumeral(n)
  {
    var v: int := NumberOf(n.whole);
    if !NumberGrammar.IsFraction(n) && !n.minus && v < 0x1_0000_0000_0000_0000 then token == ValueUnsigned(v)
    else if !NumberGrammar.IsFraction(n) && n.minus && v <= 0x8000_0000_0000_0000 then token == ValueInteger(-v)
    else token == ValueFloat(f(NumberGrammar.Spelled(n)))
  }

  /** x is a spelling of the token, and does not go on in rest. */
  ghost predicate IsLexeme(x: string, token: Token, rest: string, f: string -> UInt64) {
    match token
    case BeginArray => x == "["
    case EndArray => x == "]"
    case BeginObject => x == "{"
    case EndObject => x == "}"
    case NameSeparator => x == ":"
    case ValueSeparator => x == ","
    case LiteralTrue => x == "true"
    case LiteralFalse => x == "false"
    case LiteralNull => x == "null"
    case ValueString(v) =>
      exists ps :: StringGrammar.ArePieces(ps) && x == "\"" + (StringGrammar.SpelledAll(ps) + "\"") && v == StringGrammar.MeantAll(ps)
    case ValueUnsigned(_) => IsNumber(x, token, rest, f)
    case ValueInteger(_) => IsNumber(x, token, rest, f)
    case ValueFloat(_) => IsNumber(x, token, rest, f)
    case _ => false
  }

  ghost predicate IsNumber(x: string, token: Token, rest: string, f: string -> UInt64) {
    exists n :: NumberGrammar.IsNumeral(n) && x == NumberGrammar.Spelled(n) && NumberGrammar.Stops(n, rest) && Worth(n, token, f)
  }

  /** The token stands at the front of the text, behind blanks. */
  ghost predicate Leads(s: string, token: Token, rest: string, f: string -> UInt64) {
    exists w, x :: Blanks(w) && s == w + (x + rest) && IsLexeme(x, token, rest, f)
  }

  /** Nothing but blanks; a zero byte ends the input like its end. */
  ghost predicate AtEnd(s: string) {
    exists w :: Blanks(w) && w <= s && (s == w || s[|w|] as int == 0)
  }

  /** The text is these tokens, with blanks before each, and the rest. */
  ghost predicate Spells(s: string, ts: seq<Token>, rest: string, f: string -> UInt64)
    decreases |ts|
  {
    if ts == [] then s == rest else exists mid :: Leads(s, ts[0], mid, f) && Spells(mid, ts[1..], rest, f)
  }

  // -------------------------------------------------------------------------------------
  // Blanks
  // -------------------------------------------------------------------------------------

  lemma {:induction false} BlanksFound(s: string) returns (w: string)
    ensures Blanks(w) && s == w + SkipBlanks(s)
  {
    if s != [] && IsBlank(s[0]) {
      var v := BlanksFound(s[1..]);
      w := [s[0]] + v;
      assert s == [s[0]] + s[1..];
      Associates([s[0]], v, SkipBlanks(s));
    } else {
      w := [];
      assert [] + s == s;
    }
  }

  lemma {:induction false} BlanksSkipped(w: string, s: string)
    requires Blanks(w)
    ensures SkipBlanks(w + s) == SkipBlanks(s)
  {
    if w == [] {
      assert w + s == s;
    } else {
      assert w[0] in w && (w + s)[1..] == w[1..] + s;
      assert forall c :: c in w[1..] ==> c in w;
      BlanksSkipped(w[1..], s);
    }
  }

  // -------------------------------------------------------------------------------------
  // One token
  // -------------------------------------------------------------------------------------

  lemma PlainTokens(x: string, token: Token, rest: string, f: string -> UInt64)
    requires IsLexeme(x, token, rest, f)
    requires !token.ValueString? && !token.ValueUnsigned? && !token.ValueInteger? && !token.ValueFloat?
    ensures x != [] && !IsBlank(x[0]) && ScanHere(x + rest, f) == Lexed(token, rest)
  {
    var s := x + rest;
    assert s[0] == x[0] && s[|x|..] == rest && x <= s;
  }

  lemma QuotedScanned(t: string, v: string, rest: string, f: string -> UInt64)
    requires ScanString(t) == Scanned(v, rest)
    ensures ScanHere(['"'] + t, f) == Lexed(ValueString(v), rest)
  {
    assert (['"'] + t)[0] == '"' && (['"'] + t)[1..] == t;
  }

  lemma QuotesJoined(y: string, rest: string)
    ensures "\"" + (y + "\"") + rest == ['"'] + (y + ("\"" + rest))
  {
  }

  lemma StringToken(x: string, v: string, rest: string, f: string -> UInt64)
    requires IsLexeme(x, ValueString(v), rest, f)
    ensures x != [] && !IsBlank(x[0]) && ScanHere(x + rest, f) == Lexed(ValueString(v), rest)
  {
    var ps :| StringGrammar.ArePieces(ps) && x == "\"" + (StringGrammar.SpelledAll(ps) + "\"") && v == StringGrammar.MeantAll(ps);
    StringGrammar.StringScanned(ps, rest);
    var y := StringGrammar.SpelledAll(ps);
    QuotesJoined(y, rest);
    QuotedScanned(y + ("\"" + rest), v, rest, f);
  }

  lemma NumeralToken(n: NumberGrammar.Numeral, f: string -> UInt64)
    requires NumberGrammar.IsNumeral(n)
    ensures var m := Number(NumberGrammar.Spelled(n), NumberGrammar.TypeOf(n));
      IntegerShape(m) && Worth(n, NumberToken(m, f), f)
  {
    if !NumberGrammar.IsFraction(n) {
      IntegerSpelled(n);
    }
  }

  lemma IntegerSpelled(n: NumberGrammar.Numeral)
    requires NumberGrammar.IsNumeral(n) && !NumberGrammar.IsFraction(n)
    ensures var x := NumberGrammar.Spelled(n); if n.minus then x != "" && x[1..] == n.whole else x == n.whole
  {
    assert NumberGrammar.Behind(n) == "";
    var sign := if n.minus then "-" else "";
    assert NumberGrammar.Spelled(n) == sign + n.whole by {
      assert n.whole + "" == n.whole;
    }
    SignRemoved(n.whole);
  }

  lemma SignRemoved(x: string)
    ensures ("-" + x)[1..] == x && "" + x == x
  {
  }

  lemma NumberTokenRead(x: string, token: Token, rest: string, f: string -> UInt64)
    requires IsNumber(x, token, rest, f)
    ensures x != [] && !IsBlank(x[0]) && ScanHere(x + rest, f) == Lexed(token, rest)
  {
    var n :| NumberGrammar.IsNumeral(n) && x == NumberGrammar.Spelled(n) && NumberGrammar.Stops(n, rest) && Worth(n, token, f);
    NumberGrammar.NumeralScanned(n, rest);
    NumeralToken(n, f);
    assert x != [] by { assert n.whole != ""; }
    assert (x + rest)[0] == x[0];
    NumberHere(x + rest, f);
  }

  lemma NumberHere(s: string, f: string -> UInt64)
    requires s != [] && BeginsNumber(s[0])
    ensures ScanHere(s, f) == ScanNumberToken(s, f)
  {
  }

  lemma LexemeScanned(x: string, token: Token, rest: string, f: string -> UInt64)
    requires IsLexeme(x, token, rest, f)
    ensures x != [] && !IsBlank(x[0]) && ScanHere(x + rest, f) == Lexed(token, rest)
  {
    match token
    case ValueString(v) => StringToken(x, v, rest, f);
    case ValueUnsigned(_) => NumberTokenRead(x, token, rest, f);
    case ValueInteger(_) => NumberTokenRead(x, token, rest, f);
    case ValueFloat(_) => NumberTokenRead(x, token, rest, f);
    case _ => PlainTokens(x, token, rest, f);
  }

  predicate Stands(token: Token) {
    token !in {EndOfInput, ParseError}
  }

  lemma NumberFound(s: string, f: string -> UInt64) returns (x: string)
    requires s != [] && BeginsNumber(s[0]) && Stands(ScanHere(s, f).token)
    ensures s == x + ScanHere(s, f).rest && IsLexeme(x, ScanHere(s, f).token, ScanHere(s, f).rest, f)
  {
    NumberHere(s, f);
    var n := NumberGrammar.ScannedIsNumeral(s);
    NumeralToken(n, f);
    x := NumberGrammar.Spelled(n);
    var l := ScanHere(s, f);
    assert IsNumber(x, l.token, l.rest, f);
  }

  lemma StringFound(s: string, f: string -> UInt64) returns (x: string)
    requires s != [] && s[0] == '"' && Stands(ScanHere(s, f).token)
    ensures s == x + ScanHere(s, f).rest && IsLexeme(x, ScanHere(s, f).token, ScanHere(s, f).rest, f)
  {
    var ps := StringGrammar.ScannedIsString(s[1..]);
    var y, rest := StringGrammar.SpelledAll(ps), ScanHere(s, f).rest;
    x := "\"" + (y + "\"");
    assert s == ['"'] + s[1..];
    assert s == x + rest;
  }

  lemma LexemeFound(s: string, f: string -> UInt64) returns (x: string)
    requires Stands(ScanHere(s, f).token)
    ensures s == x + ScanHere(s, f).rest && IsLexeme(x, ScanHere(s, f).token, ScanHere(s, f).rest, f)
  {
    if s[0] == '"' {
      x := StringFound(s, f);
    } else if BeginsNumber(s[0]) {
      x := NumberFound(s, f);
    } else if s[0] in {'t', 'f', 'n'} {
      x := LiteralFound(s, f);
    } else {
      x := [s[0]];
      assert s == [s[0]] + s[1..];
      SignFound(s, f);
    }
  }

  lemma SignFound(s: string, f: string -> UInt64)
    requires Stands(ScanHere(s, f).token) && s[0] !in {'"', 't', 'f', 'n'} && !BeginsNumber(s[0])
    ensures ScanHere(s, f).rest == s[1..] && IsLexeme([s[0]], ScanHere(s, f).token, s[1..], f)
  {
  }

  lemma LiteralFound(s: string, f: string -> UInt64) returns (x: string)
    requires Stands(ScanHere(s, f).token) && s[0] in {'t', 'f', 'n'}
    ensures s == x + ScanHere(s, f).rest && IsLexeme(x, ScanHere(s, f).token, ScanHere(s, f).rest, f)
  {
    x := if s[0] == 't' then "true" else if s[0] == 'f' then "false" else "null";
    LiteralStands(s, x, if s[0] == 't' then LiteralTrue else if s[0] == 'f' then LiteralFalse else LiteralNull);
  }

  lemma LiteralStands(s: string, x: string, token: Token)
    requires Stands(ScanLiteral(s, x, token).token)
    ensures ScanLiteral(s, x, token).token == token && s == x + ScanLiteral(s, x, token).rest
  {
  }

  /** The lexer finds a token exactly where the grammar has one, and stops behind it. */
  lemma ScansTokens(s: string, token: Token, rest: string, f: string -> UInt64)
    requires Stands(token)
    ensures Scan(s, f) == Lexed(token, rest) <==> Leads(s, token, rest, f)
  {
    if Scan(s, f) == Lexed(token, rest) {
      var w := BlanksFound(s);
      var x := LexemeFound(SkipBlanks(s), f);
    }
    if Leads(s, token, rest, f) {
      var w, x :| Blanks(w) && s == w + (x + rest) && IsLexeme(x, token, rest, f);
      LexemeScanned(x, token, rest, f);
      assert (x + rest)[0] == x[0];
      BlanksSkipped(w, x + rest);
    }
  }

  /** The end of the input is reported at its end and at a zero byte. */
  lemma NoTokenEnds(t: string, f: string -> UInt64)
    ensures ScanHere(t, f).token == EndOfInput <==> t == [] || t[0] as int == 0
  {
  }

  lemma ScansEnd(s: string, f: string -> UInt64)
    ensures Scan(s, f).token == EndOfInput <==> AtEnd(s)
  {
    var t := SkipBlanks(s);
    NoTokenEnds(t, f);
    var w := BlanksFound(s);
    assert t != [] ==> s[|w|] == t[0];
    assert t == [] || t[0] as int == 0 ==> Blanks(w) && w <= s && (s == w || s[|w|] as int == 0);
    if AtEnd(s) {
      w :| Blanks(w) && w <= s && (s == w || s[|w|] as int == 0);
      EndStays(w, s[|w|..]);
      assert s == w + s[|w|..];
    }
  }

  lemma EndStays(w: string, t: string)
    requires Blanks(w) && (t == [] || t[0] as int == 0)
    ensures SkipBlanks(w + t) == t
  {
    BlanksSkipped(w, t);
  }

  // -------------------------------------------------------------------------------------
  // All tokens
  // -------------------------------------------------------------------------------------

  predicate AllStand(ts: seq<Token>) {
    forall i :: 0 <= i < |ts| ==> Stands(ts[i])
  }

  lemma FirstToken(s: string, t: Token, more: Stream, f: string -> UInt64)
    requires Tokens(s, f) == [t] + more && Stands(t)
    ensures Scan(s, f).token == t && |Scan(s, f).rest| < |s| && Tokens(Scan(s, f).rest, f) == more
  {
    ScanShrinks(s, f);
    var all := Tokens(s, f);
    assert all[0] == t && |all| >= 2;
    assert all[1..] == more;
    assert Stands(Scan(s, f).token) ==> all == [Scan(s, f).token] + Tokens(Scan(s, f).rest, f);
    assert Stands(Scan(s, f).token) ==> all[1..] == Tokens(Scan(s, f).rest, f);
  }

  /** The lexer finds the tokens that a text spells. */
  lemma {:induction false} SpelledLexes(s: string, ts: seq<Token>, rest: string, f: string -> UInt64)
    requires AllStand(ts) && Spells(s, ts, rest, f)
    ensures Tokens(s, f) == ts + Tokens(rest, f)
    decreases |ts|
  {
    if ts == [] {
      Unpadded(Tokens(rest, f));
    } else {
      var mid :| Leads(s, ts[0], mid, f) && Spells(mid, ts[1..], rest, f);
      ScansTokens(s, ts[0], mid, f);
      SpelledLexes(mid, ts[1..], rest, f);
      assert ts == [ts[0]] + ts[1..];
      Associates([ts[0]], ts[1..], Tokens(rest, f));
    }
  }

  /** And the text spells the tokens that the lexer finds. */
  lemma {:induction false} LexedSpells(s: string, ts: seq<Token>, more: Stream, f: string -> UInt64) returns (rest: string)
    requires AllStand(ts) && Tokens(s, f) == ts + more
    ensures Spells(s, ts, rest, f) && Tokens(rest, f) == more
    decreases |ts|
  {
    if ts == [] {
      rest := s;
      Unpadded(more);
    } else {
      assert ts == [ts[0]] + ts[1..];
      var mid := FirstSpelled(s, ts[0], ts[1..], more, f);
      rest := LexedSpells(mid, ts[1..], more, f);
    }
  }

  lemma FirstSpelled(s: string, t: Token, ts: seq<Token>, more: Stream, f: string -> UInt64) returns (mid: string)
    requires Stands(t) && Tokens(s, f) == [t] + ts + more
    ensures Leads(s, t, mid, f) && Tokens(mid, f) == ts + more
  {
    var later := MoreTokens(ts, more);
    Associates([t], ts, more);
    FirstToken(s, t, later, f);
    mid := Scan(s, f).rest;
    ScansTokens(s, t, mid, f);
  }

  lemma MoreTokens(ts: seq<Token>, more: Stream) returns (later: Stream)
    ensures later == ts + more
  {
    assert (ts + more)[|ts + more| - 1] == more[|more| - 1];
    later := ts + more;
  }
}
