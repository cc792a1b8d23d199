/**
 Parsing what was dumped: the pieces of which a text is made give their tokens whatever follows them,
 and the tokens of a value give back the value whatever follows them.
 */
module JsonText {
  import opened Json
  import opened Keys
  import Utf8
  import opened JsonString
  import opened JsonScan
  import opened Numerals
  import opened Sequences
  import opened JsonNumber
  import opened JsonLex
  import JsonParse
  import JsonParser
  import TokenGrammar
  import opened JsonDump
  import opened JsonLayout
  import opened ValueGrammar
  import Items = BinaryItems

  type Token = JsonParse.Token
  type Stream = JsonParse.Stream

  // -------------------------------------------------------------------------------------
  // The values that come back
  // -------------------------------------------------------------------------------------

  predicate FloatFree(j: Json) {
    match j
    case Float(_) => false
    case Arr(a) => forall i :: 0 <= i < |a| ==> FloatFree(a[i])
    case Obj(m) => forall k :: k in m ==> FloatFree(m[k])
    case _ => true
  }

  /** All strings and keys are well-formed UTF-8. */
  predicate WellFormedStrings(j: Json) {
    match j
    case Str(s) => Utf8.WellFormed(s)
    case Arr(a) => forall i :: 0 <= i < |a| ==> WellFormedStrings(a[i])
    case Obj(m) => forall k :: k in m ==> Utf8.WellFormed(k) && WellFormedStrings(m[k])
    case _ => true
  }

  predicate Dumpable(j: Json) {
    FloatFree(j) && WellFormedStrings(j)
  }

  lemma {:induction false} WellFormedIsEscapable(j: Json, ascii: bool)
    requires WellFormedStrings(j)
    ensures Escapable(j, ascii)
  {
    match j
    case Str(s) => WellFormedIsComplete(s, ascii);
    case Arr(a) =>
      forall i | 0 <= i < |a| ensures Escapable(a[i], ascii) { WellFormedIsEscapable(a[i], ascii); }
    case Obj(m) =>
      forall k | k in m ensures Complete(k, ascii) && Escapable(m[k], ascii) {
        WellFormedIsComplete(k, ascii);
        WellFormedIsEscapable(m[k], ascii);
      }
    case _ =>
  }

  // -------------------------------------------------------------------------------------
  // Lexing the text gives the tokens
  // -------------------------------------------------------------------------------------

  /** The text x gives the tokens ts, when nothing that would continue a number follows. */
  ghost predicate Lexes(f: string -> UInt64, x: string, ts: seq<Token>) {
    forall t :: Delimits(t) ==> Tokens(x + t, f) == ts + Tokens(t, f)
  }

  /** The text x gives the tokens ts, whatever follows. */
  ghost predicate LexesAlways(f: string -> UInt64, x: string, ts: seq<Token>) {
    forall t :: Tokens(x + t, f) == ts + Tokens(t, f)
  }

  lemma TokensJoined(f: string -> UInt64, x: string, xs: seq<Token>, y: string, ys: seq<Token>, t: string)
    requires Tokens(x + (y + t), f) == xs + Tokens(y + t, f) && Tokens(y + t, f) == ys + Tokens(t, f)
    ensures Tokens(x + y + t, f) == xs + ys + Tokens(t, f)
  {
    Associates(x, y, t);
    Associates(xs, ys, Tokens(t, f));
  }

  lemma LexesThen(f: string -> UInt64, x: string, xs: seq<Token>, y: string, ys: seq<Token>)
    requires LexesAlways(f, x, xs) && Lexes(f, y, ys)
    ensures Lexes(f, x + y, xs + ys)
  {
    forall t | Delimits(t) ensures Tokens(x + y + t, f) == xs + ys + Tokens(t, f) {
      TokensJoined(f, x, xs, y, ys, t);
    }
  }

  lemma LexesAlwaysThen(f: string -> UInt64, x: string, xs: seq<Token>, y: string, ys: seq<Token>)
    requires LexesAlways(f, x, xs) && LexesAlways(f, y, ys)
    ensures LexesAlways(f, x + y, xs + ys)
  {
    forall t ensures Tokens(x + y + t, f) == xs + ys + Tokens(t, f) {
      TokensJoined(f, x, xs, y, ys, t);
    }
  }

  lemma DelimitsWith(y: string, t: string)
    requires y != [] && Delimits(y)
    ensures Delimits(y + t)
  {
    assert (y + t)[0] == y[0];
  }

  /** A value, and punctuation behind it. */
  lemma LexesBefore(f: string -> UInt64, x: string, xs: seq<Token>, y: string, ys: seq<Token>)
    requires Lexes(f, x, xs) && LexesAlways(f, y, ys) && y != [] && Delimits(y)
    ensures LexesAlways(f, x + y, xs + ys)
  {
    forall t ensures Tokens(x + y + t, f) == xs + ys + Tokens(t, f) {
      DelimitsWith(y, t);
      TokensJoined(f, x, xs, y, ys, t);
    }
  }

  lemma AlwaysIsLexes(f: string -> UInt64, x: string, xs: seq<Token>)
    requires LexesAlways(f, x, xs)
    ensures Lexes(f, x, xs)
  {
  }

  lemma SameScan(f: string -> UInt64, s: string, t: string)
    requires SkipBlanks(s) == SkipBlanks(t)
    ensures Tokens(s, f) == Tokens(t, f)
  {
  }

  lemma BlanksLex(f: string -> UInt64, s: string)
    requires TokenGrammar.Blanks(s)
    ensures LexesAlways(f, s, [])
  {
    forall t ensures Tokens(s + t, f) == [] + Tokens(t, f) {
      TokenGrammar.BlanksSkipped(s, t);
      SameScan(f, s + t, t);
      assert [] + Tokens(t, f) == Tokens(t, f);
    }
  }

  /** One token at the front of the text, without blanks before it. */
  lemma OneToken(f: string -> UInt64, x: string, token: Token, t: string)
    requires x != [] && !IsBlank(x[0]) && token != JsonParse.EndOfInput && token != JsonParse.ParseError
    requires ScanHere(x + t, f) == Lexed(token, t)
    ensures Tokens(x + t, f) == [token] + Tokens(t, f)
  {
    assert (x + t)[0] == x[0];
    assert SkipBlanks(x + t) == x + t;
  }

  lemma PunctuationLexes(f: string -> UInt64, c: char, token: Token)
    requires !IsBlank(c) && token != JsonParse.EndOfInput && token != JsonParse.ParseError
    requires forall t :: ScanHere([c] + t, f) == Lexed(token, t)
    ensures LexesAlways(f, [c], [token])
  {
    forall t ensures Tokens([c] + t, f) == [token] + Tokens(t, f) {
      OneToken(f, [c], token, t);
    }
  }

  lemma PunctuationScanned(f: string -> UInt64, t: string)
    ensures ScanHere(['['] + t, f) == Lexed(JsonParse.BeginArray, t)
    ensures ScanHere([']'] + t, f) == Lexed(JsonParse.EndArray, t)
    ensures ScanHere(['{'] + t, f) == Lexed(JsonParse.BeginObject, t)
    ensures ScanHere(['}'] + t, f) == Lexed(JsonParse.EndObject, t)
    ensures ScanHere([':'] + t, f) == Lexed(JsonParse.NameSeparator, t)
    ensures ScanHere([','] + t, f) == Lexed(JsonParse.ValueSeparator, t)
  {
    assert (['['] + t)[1..] == t && ([']'] + t)[1..] == t && (['{'] + t)[1..] == t;
    assert (['}'] + t)[1..] == t && ([':'] + t)[1..] == t && ([','] + t)[1..] == t;
  }

  lemma AllPunctuationLexes(f: string -> UInt64)
    ensures LexesAlways(f, "[", [JsonParse.BeginArray]) && LexesAlways(f, "]", [JsonParse.EndArray])
    ensures LexesAlways(f, "{", [JsonParse.BeginObject]) && LexesAlways(f, "}", [JsonParse.EndObject])
    ensures LexesAlways(f, ":", [JsonParse.NameSeparator]) && LexesAlways(f, ",", [JsonParse.ValueSeparator])
  {
    forall t ensures
        && ScanHere(['['] + t, f) == Lexed(JsonParse.BeginArray, t) && ScanHere([']'] + t, f) == Lexed(JsonParse.EndArray, t)
        && ScanHere(['{'] + t, f) == Lexed(JsonParse.BeginObject, t) && ScanHere(['}'] + t, f) == Lexed(JsonParse.EndObject, t)
        && ScanHere([':'] + t, f) == Lexed(JsonParse.NameSeparator, t) && ScanHere([','] + t, f) == Lexed(JsonParse.ValueSeparator, t)
    {
      PunctuationScanned(f, t);
    }
    PunctuationLexes(f, '[', JsonParse.BeginArray);
    PunctuationLexes(f, ']', JsonParse.EndArray);
    PunctuationLexes(f, '{', JsonParse.BeginObject);
    PunctuationLexes(f, '}', JsonParse.EndObject);
    PunctuationLexes(f, ':', JsonParse.NameSeparator);
    PunctuationLexes(f, ',', JsonParse.ValueSeparator);
  }

  lemma LiteralLexes(f: string -> UInt64, literal: string, token: Token)
    requires (literal == "null" && token == JsonParse.LiteralNull) || (literal == "true" && token == JsonParse.LiteralTrue)
             || (literal == "false" && token == JsonParse.LiteralFalse)
    ensures LexesAlways(f, literal, [token])
  {
    forall t ensures Tokens(literal + t, f) == [token] + Tokens(t, f) {
      var s := literal + t;
      assert literal <= s && s[|literal|..] == t && s[0] == literal[0];
      OneToken(f, literal, token, t);
    }
  }

  lemma StringHere(f: string -> UInt64, s: string, ascii: bool, x: string, t: string)
    requires Utf8.WellFormed(s) && Complete(s, ascii) && x == EscapeText(s, ascii)
    ensures ScanHere("\"" + x + "\"" + t, f) == Lexed(JsonParse.ValueString(s), t)
  {
    ScanInvertsEscape(s, ascii, t);
    QuotedParts(x, t);
  }

  lemma QuotedParts(x: string, t: string)
    ensures ("\"" + x + "\"" + t)[0] == '"' && ("\"" + x + "\"" + t)[1..] == x + ("\"" + t)
  {
  }

  lemma StringLexes(f: string -> UInt64, st: Style, s: string)
    requires Utf8.WellFormed(s) && Complete(s, st.ascii)
    ensures LexesAlways(f, Quoted(st, s), [JsonParse.ValueString(s)])
  {
    forall t ensures Tokens(Quoted(st, s) + t, f) == [JsonParse.ValueString(s)] + Tokens(t, f) {
      StringHere(f, s, st.ascii, EscapeText(s, st.ascii), t);
      OneToken(f, Quoted(st, s), JsonParse.ValueString(s), t);
    }
  }

  lemma IntegerLexes(f: string -> UInt64, x: int)
    requires -0x8000_0000_0000_0000 <= x < 0x1_0000_0000_0000_0000
    ensures Lexes(f, IntegerText(x), [IntegerToken(x)])
  {
    forall t | Delimits(t) ensures Tokens(IntegerText(x) + t, f) == [IntegerToken(x)] + Tokens(t, f) {
      IntegerHere(f, x, t);
      OneToken(f, IntegerText(x), IntegerToken(x), t);
    }
  }

  lemma IntegerTokenRead(f: string -> UInt64, x: int)
    requires -0x8000_0000_0000_0000 <= x < 0x1_0000_0000_0000_0000
    ensures var n := Number(IntegerText(x), if x < 0 then TInteger else TUnsigned);
      IntegerShape(n) && NumberToken(n, f) == IntegerToken(x)
  {
    NumberOfDecimal(Abs(x));
    if x < 0 {
      assert IntegerText(x)[1..] == Decimal(-x);
    }
  }

  lemma NumberHere(f: string -> UInt64, s: string)
    requires s != [] && BeginsNumber(s[0])
    ensures ScanHere(s, f) == ScanNumberToken(s, f)
  {
  }

  lemma IntegerHere(f: string -> UInt64, x: int, t: string)
    requires -0x8000_0000_0000_0000 <= x < 0x1_0000_0000_0000_0000 && Delimits(t)
    ensures IntegerText(x) != [] && BeginsNumber(IntegerText(x)[0])
    ensures ScanHere(IntegerText(x) + t, f) == Lexed(IntegerToken(x), t)
  {
    IntegerScanned(x, t);
    assert (IntegerText(x) + t)[0] == IntegerText(x)[0];
    IntegerTokenRead(f, x);
    NumberHere(f, IntegerText(x) + t);
  }

  /** One part of a list, a comma and the rest. */
  lemma SeparatedLexes(f: string -> UInt64, x: string, xs: seq<Token>, br: string, rest: string, ts: seq<Token>)
    requires Lexes(f, x, xs) && LexesAlways(f, br, []) && Lexes(f, rest, ts)
    ensures Lexes(f, x + ("," + br + rest), xs + ([JsonParse.ValueSeparator] + ts))
  {
    var sep := [JsonParse.ValueSeparator];
    AllPunctuationLexes(f);
    LexesAlwaysThen(f, ",", sep, br, []);
    Unpadded(sep);
    LexesBefore(f, x, xs, "," + br, sep);
    LexesThen(f, x + ("," + br), xs + sep, rest, ts);
    Associates(x, "," + br, rest);
    Associates(xs, sep, ts);
  }

  /** Brackets around contents. */
  lemma EnclosedLexes(f: string -> UInt64, open: string, os: seq<Token>, br: string, x: string, xs: seq<Token>,
      lead: string, close: string, cs: seq<Token>)
    requires LexesAlways(f, open, os) && LexesAlways(f, br, []) && Lexes(f, x, xs)
    requires LexesAlways(f, lead, []) && LexesAlways(f, close, cs)
    requires br + lead + close != [] && Delimits(br + lead + close)
    ensures Lexes(f, open + br + x + br + lead + close, os + xs + cs)
  {
    LexesAlwaysThen(f, open, os, br, []);
    Unpadded(os);
    LexesThen(f, open + br, os, x, xs);
    LexesAlwaysThen(f, br, [], lead, []);
    LexesAlwaysThen(f, br + lead, [], close, cs);
    Unpadded(cs);
    LexesBefore(f, open + br + x, os + xs, br + lead + close, cs);
    Associates(open + br + x, br + lead, close);
    Associates(open + br + x, br, lead);
    AlwaysIsLexes(f, open + br + x + (br + lead + close), os + xs + cs);
  }

  predicate BlankStyle(st: Style) {
    st.pretty ==> IsBlank(st.indentChar)
  }

  lemma SpaceLexes(f: string -> UInt64, st: Style, n: nat)
    requires BlankStyle(st)
    ensures LexesAlways(f, Break(st), []) && LexesAlways(f, Lead(st, n), [])
    ensures LexesAlways(f, if st.pretty then " " else "", [])
  {
    BlanksLex(f, Break(st));
    BlanksLex(f, Lead(st, n));
    BlanksLex(f, if st.pretty then " " else "");
  }

  lemma LedLexes(f: string -> UInt64, st: Style, n: nat, x: string, xs: seq<Token>)
    requires BlankStyle(st) && Lexes(f, x, xs)
    ensures Lexes(f, Lead(st, n) + x, xs)
  {
    SpaceLexes(f, st, n);
    LexesThen(f, Lead(st, n), [], x, xs);
    Unpadded(xs);
  }

  lemma ElementLexes(f: string -> UInt64, st: Style, j: Json, i: nat, n: nat)
    requires BlankStyle(st) && j.Arr? && i < |j.a| && Escapable(j, st.ascii)
    requires Lexes(f, Text(st, j.a[i], n), TokensOf(j.a[i]))
    requires i + 1 < |j.a| ==> Lexes(f, ElementsText(st, j, i + 1, n), ElementTokens(j, i + 1))
    ensures Lexes(f, ElementsText(st, j, i, n), ElementTokens(j, i))
  {
    var x, xs := Lead(st, n) + Text(st, j.a[i], n), TokensOf(j.a[i]);
    LedLexes(f, st, n, Text(st, j.a[i], n), xs);
    NextElementTokens(j, i);
    if i == |j.a| - 1 {
      Unpadded(x);
      Unpadded(xs);
    } else {
      SpaceLexes(f, st, n);
      SeparatedLexes(f, x, xs, Break(st), ElementsText(st, j, i + 1, n), ElementTokens(j, i + 1));
    }
  }

  lemma {:induction false} ElementsLex(f: string -> UInt64, st: Style, j: Json, i: nat, n: nat)
    requires BlankStyle(st) && j.Arr? && i < |j.a| && Escapable(j, st.ascii) && Dumpable(j)
    ensures Lexes(f, ElementsText(st, j, i, n), ElementTokens(j, i))
    decreases j, 0, |j.a| - i
  {
    TextLexes(f, st, j.a[i], n);
    if i + 1 < |j.a| {
      ElementsLex(f, st, j, i + 1, n);
    }
    ElementLexes(f, st, j, i, n);
  }

  lemma ColonLexes(f: string -> UInt64, lead: string, key: string, k: seq<Token>)
    requires LexesAlways(f, lead, []) && LexesAlways(f, key, k)
    ensures LexesAlways(f, lead + key + ":", k + [JsonParse.NameSeparator])
  {
    LexesAlwaysThen(f, lead, [], key, k);
    Unpadded(k);
    AllPunctuationLexes(f);
    LexesAlwaysThen(f, lead + key, k, ":", [JsonParse.NameSeparator]);
  }

  lemma KeyLexes(f: string -> UInt64, lead: string, key: string, s: string, space: string)
    requires LexesAlways(f, lead, []) && LexesAlways(f, key, [JsonParse.ValueString(s)]) && LexesAlways(f, space, [])
    ensures LexesAlways(f, lead + key + ":" + space, KeyYield(s))
  {
    var ks := KeyYield(s);
    ColonLexes(f, lead, key, [JsonParse.ValueString(s)]);
    assert [JsonParse.ValueString(s)] + [JsonParse.NameSeparator] == ks;
    LexesAlwaysThen(f, lead + key + ":", ks, space, []);
    Unpadded(ks);
  }

  lemma MemberLexes(f: string -> UInt64, st: Style, j: Json, k: string, n: nat)
    requires BlankStyle(st) && j.Obj? && k in j.m && Escapable(j, st.ascii) && Utf8.WellFormed(k)
    requires Lexes(f, Text(st, j.m[k], n), TokensOf(j.m[k]))
    ensures Lexes(f, MemberText(st, j, k, n), KeyYield(k) + TokensOf(j.m[k]))
  {
    var space := if st.pretty then " " else "";
    SpaceLexes(f, st, n);
    StringLexes(f, st, k);
    KeyLexes(f, Lead(st, n), Quoted(st, k), k, space);
    LexesThen(f, Lead(st, n) + Quoted(st, k) + ":" + space, KeyYield(k),
      Text(st, j.m[k], n), TokensOf(j.m[k]));
  }

  lemma {:induction false} MembersLex(f: string -> UInt64, st: Style, j: Json, keys: seq<string>, n: nat)
    requires BlankStyle(st) && j.Obj? && keys != [] && (forall k :: k in keys ==> k in j.m)
    requires Escapable(j, st.ascii) && Dumpable(j)
    ensures Lexes(f, MembersText(st, j, keys, n), MemberTokens(j, keys))
    decreases j, 0, |keys|
  {
    var k := keys[0];
    TextLexes(f, st, j.m[k], n);
    MemberLexes(f, st, j, k, n);
    NextMemberTokens(j, keys);
    var x, xs := MemberText(st, j, k, n), KeyYield(k) + TokensOf(j.m[k]);
    if |keys| == 1 {
      Unpadded(x);
      Unpadded(xs);
    } else {
      MembersLex(f, st, j, keys[1..], n);
      SpaceLexes(f, st, n);
      SeparatedLexes(f, x, xs, Break(st), MembersText(st, j, keys[1..], n), MemberTokens(j, keys[1..]));
    }
  }

  lemma PairLexes(f: string -> UInt64, open: char, o: Token, close: char, c: Token)
    requires LexesAlways(f, [open], [o]) && LexesAlways(f, [close], [c])
    ensures Lexes(f, [open, close], [o, c])
  {
    LexesAlwaysThen(f, [open], [o], [close], [c]);
    assert [open] + [close] == [open, close] && [o] + [c] == [o, c];
    AlwaysIsLexes(f, [open, close], [o, c]);
  }

  lemma EmptyLexes(f: string -> UInt64)
    ensures Lexes(f, "[]", [JsonParse.BeginArray, JsonParse.EndArray])
    ensures Lexes(f, "{}", [JsonParse.BeginObject, JsonParse.EndObject])
  {
    AllPunctuationLexes(f);
    PairLexes(f, '[', JsonParse.BeginArray, ']', JsonParse.EndArray);
    PairLexes(f, '{', JsonParse.BeginObject, '}', JsonParse.EndObject);
  }

  lemma ArrayLexes(f: string -> UInt64, st: Style, j: Json, n: nat)
    requires BlankStyle(st) && j.Arr? && j.a != [] && Escapable(j, st.ascii)
    requires Lexes(f, ElementsText(st, j, 0, Deeper(st, n)), ElementTokens(j, 0))
    ensures Lexes(f, Text(st, j, n), TokensOf(j))
  {
    var x := ElementsText(st, j, 0, Deeper(st, n));
    BracketsLex(f, st, n, "[", JsonParse.BeginArray, x, ElementTokens(j, 0), "]", JsonParse.EndArray);
    assert Text(st, j, n) == "[" + Break(st) + x + Break(st) + Lead(st, n) + "]";
    ArrayTokens(j);
  }

  lemma BracketsLex(f: string -> UInt64, st: Style, n: nat, open: string, o: Token, x: string, xs: seq<Token>,
      close: string, c: Token)
    requires BlankStyle(st) && Lexes(f, x, xs)
    requires (open, o, close, c) in {
      ("[", JsonParse.BeginArray, "]", JsonParse.EndArray), ("{", JsonParse.BeginObject, "}", JsonParse.EndObject)}
    ensures Lexes(f, open + Break(st) + x + Break(st) + Lead(st, n) + close, [o] + xs + [c])
  {
    AllPunctuationLexes(f);
    SpaceLexes(f, st, n);
    ClosingDelimits(st, n, close);
    EnclosedLexes(f, open, [o], Break(st), x, xs, Lead(st, n), close, [c]);
  }

  lemma ClosingDelimits(st: Style, n: nat, close: string)
    requires close == "]" || close == "}"
    ensures Break(st) + Lead(st, n) + close != [] && Delimits(Break(st) + Lead(st, n) + close)
  {
    assert st.pretty ==> (Break(st) + Lead(st, n) + close)[0] == '\n';
    assert !st.pretty ==> Break(st) + Lead(st, n) + close == close;
  }

  lemma ObjectLexes(f: string -> UInt64, st: Style, j: Json, n: nat)
    requires BlankStyle(st) && j.Obj? && j.m != map[] && Escapable(j, st.ascii)
    requires Lexes(f, MembersText(st, j, Sorted(j.m.Keys), Deeper(st, n)), MemberTokens(j, Sorted(j.m.Keys)))
    ensures Lexes(f, Text(st, j, n), TokensOf(j))
  {
    var keys := Sorted(j.m.Keys);
    var x := MembersText(st, j, keys, Deeper(st, n));
    BracketsLex(f, st, n, "{", JsonParse.BeginObject, x, MemberTokens(j, keys), "}", JsonParse.EndObject);
    assert Text(st, j, n) == "{" + Break(st) + x + Break(st) + Lead(st, n) + "}";
    ObjectTokens(j);
  }

  lemma ScalarLexes(f: string -> UInt64, st: Style, j: Json, n: nat)
    requires !j.Arr? && !j.Obj? && Escapable(j, st.ascii) && Dumpable(j)
    ensures Lexes(f, Text(st, j, n), TokensOf(j))
  {
    match j
    case Null => LiteralLexes(f, "null", JsonParse.LiteralNull);
    case Bool(b) =>
      LiteralLexes(f, "true", JsonParse.LiteralTrue);
      LiteralLexes(f, "false", JsonParse.LiteralFalse);
    case Int(i) => IntegerLexes(f, i);
    case UInt(u) => IntegerLexes(f, u);
    case Str(s) => StringLexes(f, st, s);
  }

  /** The lexer finds the tokens of a value in its text, however it is indented. */
  lemma {:induction false} TextLexes(f: string -> UInt64, st: Style, j: Json, n: nat)
    requires BlankStyle(st) && Dumpable(j) && Escapable(j, st.ascii)
    ensures Lexes(f, Text(st, j, n), TokensOf(j))
    decreases j, 1, 0
  {
    match j
    case Arr(a) =>
      if a == [] {
        EmptyLexes(f);
        EmptyTokens();
      } else {
        ElementsLex(f, st, j, 0, Deeper(st, n));
        ArrayLexes(f, st, j, n);
      }
    case Obj(m) =>
      if m == map[] {
        EmptyLexes(f);
        EmptyTokens();
      } else {
        MembersLex(f, st, j, Sorted(m.Keys), Deeper(st, n));
        ObjectLexes(f, st, j, n);
      }
    case _ => ScalarLexes(f, st, j, n);
  }

  // -------------------------------------------------------------------------------------
  // Parsing the tokens gives the value
  // -------------------------------------------------------------------------------------

  /** The tokens of j parse to j's normal form, whatever follows. */
  ghost predicate Parses(j: Json) {
    forall ts: Stream :: ParsesTo(JsonParse.ParseValue(Before(TokensOf(j), ts)), Items.Norm(j), ts)
  }

  predicate Represents(t: Tree, j: Json) {
    IsTree(t) && Meaning(t) == Items.Norm(j) && AllInRange(Yield(t))
  }

  lemma {:induction false} ElementsMean(j: Json, i: nat)
    requires j.Arr? && i <= |j.a| && forall k :: 0 <= k < |j.a| ==> Represents(TreeOf(j.a[k]), j.a[k])
    ensures AreTrees(ElementTrees(j, i)) && AllInRange(ElementYield(ElementTrees(j, i)))
    ensures Items.NormUpTo(j.a, i) + Meanings(ElementTrees(j, i)) == Items.NormUpTo(j.a, |j.a|)
    decreases |j.a| - i
  {
    if i == |j.a| {
      Unpadded(Items.NormUpTo(j.a, i));
    } else {
      ElementsMean(j, i + 1);
      NextElementTokens(j, i);
      Items.NormUpToNext(j.a, i);
      var es := ElementTrees(j, i);
      assert es[0] == TreeOf(j.a[i]) && es[1..] == ElementTrees(j, i + 1);
      Associates(Items.NormUpTo(j.a, i), [Meaning(es[0])], Meanings(es[1..]));
    }
  }

  /** The members set so far are all but those with the remaining keys. */
  lemma {:induction false} MembersMean(j: Json, keys: seq<string>)
    requires j.Obj? && Distinct(keys) && forall k :: k in keys ==> k in j.m
    requires forall k :: k in j.m ==> Represents(TreeOf(j.m[k]), j.m[k])
    ensures AreMembers(MemberTrees(j, keys)) && AllInRange(MemberYield(MemberTrees(j, keys)))
    ensures SetAll(Items.NormBut(j.m, keys), MemberTrees(j, keys)) == Items.NormBut(j.m, [])
    decreases |keys|
  {
    if keys != [] {
      MembersMean(j, keys[1..]);
      NextMemberTokens(j, keys);
      Items.NormNext(j.m, keys);
      var ms := MemberTrees(j, keys);
      assert ms[0] == Member(keys[0], TreeOf(j.m[keys[0]])) && ms[1..] == MemberTrees(j, keys[1..]);
      FirstSet(Items.NormBut(j.m, keys), ms);
    }
  }

  lemma {:induction false} TreeRepresents(j: Json)
    requires FloatFree(j)
    ensures Represents(TreeOf(j), j)
  {
    match j
    case Arr(a) =>
      forall k | 0 <= k < |a| ensures Represents(TreeOf(a[k]), a[k]) { TreeRepresents(a[k]); }
      ElementsMean(j, 0);
      Items.NormUpToEnds(a);
      Unpadded(Meanings(ElementTrees(j, 0)));
    case Obj(m) =>
      forall k | k in m ensures Represents(TreeOf(m[k]), m[k]) { TreeRepresents(m[k]); }
      SortedDistinct(m.Keys);
      MembersMean(j, Sorted(m.Keys));
      Items.NormButEnds(m);
    case _ =>
  }

  lemma TokensParse(j: Json)
    requires FloatFree(j)
    ensures Parses(j)
  {
    TreeRepresents(j);
    forall ts: Stream ensures ParsesTo(JsonParse.ParseValue(Before(TokensOf(j), ts)), Items.Norm(j), ts) {
      TreeReads(TreeOf(j), ts);
    }
  }

  // -------------------------------------------------------------------------------------
  // Only well-formed strings come back
  // -------------------------------------------------------------------------------------

  predicate StringsGood(ts: Stream) {
    forall i :: 0 <= i < |ts| && ts[i].ValueString? ==> Utf8.WellFormed(ts[i].s)
  }

  lemma {:induction false} TokensAreGood(s: string, f: string -> UInt64)
    ensures StringsGood(Tokens(s, f))
    decreases |s|
  {
    var l := Scan(s, f);
    ScanShrinks(s, f);
    if l.token.ValueString? {
      ScannedIsWellFormed(SkipBlanks(s)[1..]);
    }
    if l.token !in {JsonParse.EndOfInput, JsonParse.ParseError} {
      TokensAreGood(l.rest, f);
    }
  }

  predicate GoodResult(r: JsonParse.Parsed) {
    r.Got? ==> WellFormedStrings(r.value) && StringsGood(r.at)
  }

  lemma NextIsGood(ts: Stream)
    requires StringsGood(ts)
    ensures StringsGood(JsonParse.Next(ts))
  {
  }

  lemma {:induction false} ElementsAreGood(ts: Stream, a: seq<Json>)
    requires StringsGood(ts) && forall i :: 0 <= i < |a| ==> WellFormedStrings(a[i])
    ensures GoodResult(JsonParse.ParseElements(ts, a))
    decreases |ts|, 1
  {
    ParsedIsGood(ts);
    var v := JsonParse.ParseValue(ts);
    if v.Got? {
      var n := JsonParse.Next(v.at);
      NextIsGood(v.at);
      NextIsGood(n);
      if n[0] == JsonParse.ValueSeparator {
        ElementsAreGood(JsonParse.Next(n), a + [v.value]);
      }
    }
  }

  lemma {:induction false} MembersAreGood(ts: Stream, m: map<string, Json>)
    requires StringsGood(ts) && WellFormedStrings(Obj(m))
    ensures GoodResult(JsonParse.ParseMembers(ts, m))
    decreases |ts|, 2
  {
    if ts[0].ValueString? && JsonParse.Next(ts)[0] == JsonParse.NameSeparator {
      NextIsGood(ts);
      NextIsGood(JsonParse.Next(ts));
      MemberIsGood(JsonParse.Next(JsonParse.Next(ts)), m, ts[0].s);
    }
  }

  lemma {:induction false} MemberIsGood(ts: Stream, m: map<string, Json>, key: string)
    requires StringsGood(ts) && WellFormedStrings(Obj(m)) && Utf8.WellFormed(key)
    ensures GoodResult(JsonParse.AfterKey(ts, m, key))
    decreases |ts|, 1
  {
    ParsedIsGood(ts);
    var v := JsonParse.ParseValue(ts);
    if v.Got? {
      var n := JsonParse.Next(v.at);
      NextIsGood(v.at);
      NextIsGood(n);
      if n[0] == JsonParse.ValueSeparator {
        MembersAreGood(JsonParse.Next(n), m[key := v.value]);
      }
    }
  }

  lemma {:induction false} ParsedIsGood(ts: Stream)
    requires StringsGood(ts)
    ensures GoodResult(JsonParse.ParseValue(ts))
    decreases |ts|, 0
  {
    NextIsGood(ts);
    if ts[0] == JsonParse.BeginArray {
      ElementsAreGood(JsonParse.Next(ts), []);
    } else if ts[0] == JsonParse.BeginObject {
      MembersAreGood(JsonParse.Next(ts), map[]);
    }
  }

  lemma {:induction false} EqWellFormed(x: Json, y: Json)
    requires Eq(x, y) && WellFormedStrings(x)
    ensures WellFormedStrings(y)
    decreases x
  {
    match (x, y)
    case (Arr(a), Arr(b)) =>
      forall i | 0 <= i < |a| ensures WellFormedStrings(b[i]) { EqWellFormed(a[i], b[i]); }
    case (Obj(m), Obj(n)) =>
      forall k | k in m ensures WellFormedStrings(n[k]) { EqWellFormed(m[k], n[k]); }
    case _ =>
  }

  // -------------------------------------------------------------------------------------
  // The round trip
  // -------------------------------------------------------------------------------------

  lemma {:induction false} FloatFreeIsNaNFree(j: Json)
    requires FloatFree(j)
    ensures NaNFree(j)
  {
    match j
    case Arr(a) =>
      forall i | 0 <= i < |a| ensures NaNFree(a[i]) { FloatFreeIsNaNFree(a[i]); }
    case Obj(m) =>
      forall k | k in m ensures NaNFree(m[k]) { FloatFreeIsNaNFree(m[k]); }
    case _ =>
  }

  lemma EndToken(f: string -> UInt64)
    ensures Tokens("", f) == [JsonParse.EndOfInput]
  {
  }

  lemma TextParses(f: string -> UInt64, st: Style, j: Json, n: nat, strict: bool)
    requires BlankStyle(st) && Dumpable(j) && Escapable(j, st.ascii)
    ensures JsonParse.Parse(Tokens(Text(st, j, n), f), strict).Got?
    ensures JsonParse.Parse(Tokens(Text(st, j, n), f), strict).value == Items.Norm(j)
  {
    TextLexes(f, st, j, n);
    TokensParse(j);
    Unpadded(Text(st, j, n));
    EndToken(f);
    var ts: Stream := [JsonParse.EndOfInput];
    assert Delimits("");
    assert Tokens(Text(st, j, n) + "", f) == Before(TokensOf(j), ts);
  }

  /** parse(dump(j)) == j: a value without floats comes back exactly when its strings are well-formed. */
  lemma TextRoundTrip(f: string -> UInt64, st: Style, j: Json, strict: bool)
    requires BlankStyle(st) && FloatFree(j) && Escapable(j, st.ascii)
    ensures var r := JsonParse.Parse(Tokens(Text(st, j, 0), f), strict);
      r.Got? && Eq(r.value, j) <==> WellFormedStrings(j)
  {
    if WellFormedStrings(j) {
      TextParses(f, st, j, 0, strict);
      FloatFreeIsNaNFree(j);
      Items.NormEqual(j);
    }
    var ts := Tokens(Text(st, j, 0), f);
    var r := JsonParse.Parse(ts, strict);
    if r.Got? && Eq(r.value, j) {
      TokensAreGood(Text(st, j, 0), f);
      ParsedIsGood(ts);
      EqWellFormed(r.value, j);
    }
  }

  /**
   parse(dump(j, indent, indentChar, ascii)), for strings that are well-formed or at least escapable: nothing but
   ill-formed strings keeps a value without floats from coming back.
   */
  method ParseDumped(j: Json, indent: int, indentChar: char, ascii: bool, floatText: UInt64 -> string, toFloat: string -> UInt64)
    returns (r: JsonParser.Outcome)
    requires FloatFree(j) && (WellFormedStrings(j) || Escapable(j, ascii))
    requires indent < 0x8000_0000 && (indent >= 0 ==> IsBlank(indentChar)) && !(j.Obj? && j.m != map[] && indent > 1024)
    ensures r.Value? && Eq(r.value, j) <==> WellFormedStrings(j)
    ensures WellFormedStrings(j) ==> r == JsonParser.Value(Items.Norm(j))
  {
    if WellFormedStrings(j) {
      WellFormedIsEscapable(j, ascii);
    }
    var st, text := DumpValue(j, indent, indentChar, ascii, floatText);
    r := JsonParser.ParseText(text, toFloat, true);
    TextRoundTrip(toFloat, st, j, true);
    if WellFormedStrings(j) {
      TextParses(toFloat, st, j, 0, true);
    }
  }
}
