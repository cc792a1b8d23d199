/**
 The strings of JSON (section 7 of RFC 7159), and that they are what the scanner finds.
 */
module StringGrammar {
  import opened Utf8
  import opened JsonString
  import opened JsonScan
  import opened Sequences

  /** A character as it is, an escape of one letter, of four digits, and a pair of surrogates. */
  datatype Piece =
    | Plain(code: int)
    | Short(letter: char, code: int)
    | Code(hex: string, code: int)
    | Pair(highHex: string, high: int, lowHex: string, low: int)

  /** The digits 0 to 9, and the letters for 10 to 15 in either case. */
  predicate HexIs(c: char, d: int) {
    if d < 10 then 0 <= d && c as int == '0' as int + d
    else d < 16 && c as int in {'a' as int + d - 10, 'A' as int + d - 10}
  }

  /** Four hexadecimal digits, in either case, and their number. */
  predicate Hex4Is(x: string, n: int) {
    && |x| == 4 && 0 <= n <= 0xffff
    && HexIs(x[0], n / 0x1000) && HexIs(x[1], n / 0x100 % 16) && HexIs(x[2], n / 0x10 % 16) && HexIs(x[3], n % 16)
  }

  /** The escapes of one letter: quotation mark, reverse solidus, solidus, and five control characters. */
  predicate ShortIs(letter: char, code: int) {
    (letter, code) in {('"', 0x22), ('\\', 0x5c), ('/', 0x2f), ('b', 0x8), ('f', 0xc), ('n', 0xa), ('r', 0xd), ('t', 0x9)}
  }

  predicate IsPiece(p: Piece) {
    match p
    case Plain(code) => IsScalar(code) && code >= 0x20 && code !in {0x22, 0x5c}
    case Short(letter, code) => ShortIs(letter, code)
    case Code(hex, code) => Hex4Is(hex, code) && !IsSurrogate(code)
    case Pair(highHex, high, lowHex, low) =>
      Hex4Is(highHex, high) && 0xd800 <= high <= 0xdbff && Hex4Is(lowHex, low) && 0xdc00 <= low <= 0xdfff
  }

  /** The code point that a piece stands for. */
  function Meant(p: Piece): (cp: int)
    requires IsPiece(p)
    ensures IsScalar(cp)
  {
    if p.Pair? then 0x1_0000 + (p.high - 0xd800) * 0x400 + (p.low - 0xdc00) else p.code
  }

  function Spelled(p: Piece): string
    requires IsPiece(p)
  {
    match p
    case Plain(code) => Encode(code)
    case Short(letter, _) => ['\\', letter]
    case Code(hex, _) => "\\u" + hex
    case Pair(highHex, _, lowHex, _) => "\\u" + highHex + "\\u" + lowHex
  }

  predicate ArePieces(ps: seq<Piece>) {
    forall p :: p in ps ==> IsPiece(p)
  }

  function SpelledAll(ps: seq<Piece>): string
    requires ArePieces(ps)
  {
    if ps == [] then "" else Spelled(ps[0]) + SpelledAll(ps[1..])
  }

  /** The string that is meant, in UTF-8. */
  function MeantAll(ps: seq<Piece>): string
    requires ArePieces(ps)
  {
    if ps == [] then "" else Encode(Meant(ps[0])) + MeantAll(ps[1..])
  }

  // -------------------------------------------------------------------------------------
  // Every string is scanned
  // -------------------------------------------------------------------------------------

  lemma DigitIsHex(c: char, d: int)
    ensures HexIs(c, d) <==> IsHex(c) && HexValue(c) == d
  {
  }

  /** The number and its digits. */
  lemma NumberOfDigits(n: int, a: int, b: int, c: int, d: int)
    requires 0 <= a < 16 && 0 <= b < 16 && 0 <= c < 16 && 0 <= d < 16
    ensures n == a * 0x1000 + b * 0x100 + c * 0x10 + d <==>
      0 <= n <= 0xffff && n / 0x1000 == a && n / 0x100 % 16 == b && n / 0x10 % 16 == c && n % 16 == d
  {
    var x, y := n / 0x10, n / 0x100;
    assert y == x / 0x10 && n / 0x1000 == y / 0x10;
    LastDigit(n, (a * 0x10 + b) * 0x10 + c, d);
    LastDigit(x, a * 0x10 + b, c);
    LastDigit(y, a, b);
  }

  lemma LastDigit(n: int, q: int, d: int)
    requires 0 <= d < 16
    ensures n == q * 0x10 + d <==> n / 0x10 == q && n % 0x10 == d
  {
  }

  lemma Hex4IsValue(x: string, n: int)
    requires |x| == 4
    ensures Hex4Is(x, n) <==>
      && IsHex(x[0]) && IsHex(x[1]) && IsHex(x[2]) && IsHex(x[3])
      && n == HexValue(x[0]) * 0x1000 + HexValue(x[1]) * 0x100 + HexValue(x[2]) * 0x10 + HexValue(x[3])
  {
    DigitIsHex(x[0], n / 0x1000);
    DigitIsHex(x[1], n / 0x100 % 16);
    DigitIsHex(x[2], n / 0x10 % 16);
    DigitIsHex(x[3], n % 16);
    if IsHex(x[0]) && IsHex(x[1]) && IsHex(x[2]) && IsHex(x[3]) {
      NumberOfDigits(n, HexValue(x[0]), HexValue(x[1]), HexValue(x[2]), HexValue(x[3]));
    }
  }

  lemma Hex4Scanned(x: string, n: int, t: string)
    requires Hex4Is(x, n)
    ensures ScanHex4(x + t) == Scanned(n, t)
  {
    Hex4IsValue(x, n);
    var s := x + t;
    assert s[4..] == t && s[0] == x[0] && s[1] == x[1] && s[2] == x[2] && s[3] == x[3];
  }

  lemma PairScanned(p: Piece, t: string)
    requires IsPiece(p) && p.Pair?
    ensures ScanCode(p.highHex + ("\\u" + (p.lowHex + t))) == Scanned(Meant(p), t)
  {
    var x := "\\u" + (p.lowHex + t);
    Hex4Scanned(p.highHex, p.high, x);
    Hex4Scanned(p.lowHex, p.low, t);
    EscapeStarts(p.lowHex + t);
    LowScanned(p.high, x, p.low, t);
  }

  lemma EscapeScanned(x: string, cp: int, t: string)
    requires IsScalar(cp) && ScanCode(x) == Scanned(cp, t)
    ensures ScanString("\\u" + x) == Prepend(Encode(cp), ScanString(t))
  {
    var s := "\\u" + x;
    assert s[0] == '\\' && s[1..][0] == 'u' && s[1..][1..] == x;
  }

  lemma PlainScanned(code: int, t: string)
    requires IsPiece(Plain(code))
    ensures ScanString(Encode(code) + t) == Prepend(Encode(code), ScanString(t))
  {
    EncodedIsChar(code, t);
    var s := Encode(code) + t;
    assert s[0] == Encode(code)[0] && s[..|Encode(code)|] == Encode(code) && s[|Encode(code)|..] == t;
  }

  lemma PieceScanned(p: Piece, t: string)
    requires IsPiece(p)
    ensures ScanString(Spelled(p) + t) == Prepend(Encode(Meant(p)), ScanString(t))
  {
    match p
    case Plain(code) => PlainScanned(code, t);
    case Short(letter, code) =>
      var s := ['\\', letter] + t;
      assert s[0] == '\\' && s[1..][0] == letter && s[1..][1..] == t;
    case Code(hex, code) =>
      Hex4Scanned(hex, code, t);
      EscapeScanned(hex + t, code, t);
      Associates("\\u", hex, t);
    case Pair(highHex, _, lowHex, _) =>
      PairScanned(p, t);
      EscapeScanned(highHex + ("\\u" + (lowHex + t)), Meant(p), t);
      PairJoined(highHex, lowHex, t);
  }

  /** The scanner finds every string up to its closing quotation mark. */
  lemma {:induction false} StringScanned(ps: seq<Piece>, rest: string)
    requires ArePieces(ps)
    ensures ScanString(SpelledAll(ps) + ("\"" + rest)) == Scanned(MeantAll(ps), rest)
  {
    var quote := "\"" + rest;
    if ps == [] {
      assert "" + quote == quote && quote[1..] == rest;
    } else {
      StringScanned(ps[1..], rest);
      PieceScanned(ps[0], SpelledAll(ps[1..]) + quote);
      Associates(Spelled(ps[0]), SpelledAll(ps[1..]), quote);
    }
  }

  // -------------------------------------------------------------------------------------
  // Nothing else is scanned
  // -------------------------------------------------------------------------------------

  lemma Hex4Found(s: string) returns (x: string)
    requires ScanHex4(s).Scanned?
    ensures Hex4Is(x, ScanHex4(s).value) && s == x + ScanHex4(s).rest
  {
    x := s[..4];
    Hex4IsValue(x, ScanHex4(s).value);
  }

  lemma LowFound(high: int, t: string) returns (y: string, low: int)
    requires 0xd800 <= high <= 0xdbff && ScanLow(high, t).Scanned?
    ensures Hex4Is(y, low) && 0xdc00 <= low <= 0xdfff
    ensures ScanLow(high, t).value == 0x1_0000 + (high - 0xd800) * 0x400 + (low - 0xdc00)
    ensures t == "\\u" + (y + ScanLow(high, t).rest)
  {
    y := Hex4Found(t[2..]);
    low := ScanHex4(t[2..]).value;
    assert t == "\\u" + t[2..];
  }

  lemma PairJoined(x: string, y: string, rest: string)
    ensures "\\u" + (x + ("\\u" + (y + rest))) == "\\u" + x + "\\u" + y + rest
  {
  }

  lemma CodeFound(s: string) returns (p: Piece)
    requires ScanCode(s).Scanned?
    ensures IsPiece(p) && Meant(p) == ScanCode(s).value && "\\u" + s == Spelled(p) + ScanCode(s).rest
  {
    var one := ScanHex4(s);
    var x := Hex4Found(s);
    if 0xd800 <= one.value <= 0xdbff {
      var y, low := LowFound(one.value, one.rest);
      p := Pair(x, one.value, y, low);
      PairJoined(x, y, ScanLow(one.value, one.rest).rest);
    } else {
      p := Code(x, one.value);
      Associates("\\u", x, one.rest);
    }
  }

  lemma PlainFound(s: string) returns (p: Piece)
    requires s != [] && s[0] !in {'"', '\\'} && s[0] as int > 0x1f && CharLength(s) > 0
    ensures IsPiece(p) && Encode(Meant(p)) == s[..CharLength(s)] == Spelled(p)
  {
    CharIsEncoded(s);
    p := Plain(CodePoint(s, CharLength(s)));
    assert Encode(p.code)[0] == s[0];
  }

  lemma NextPiece(s: string) returns (p: Piece, rest: string)
    requires ScanString(s).Scanned? && s[0] != '"'
    ensures IsPiece(p) && |rest| < |s| && s == Spelled(p) + rest
    ensures ScanString(s) == Prepend(Encode(Meant(p)), ScanString(rest))
  {
    if s[0] == '\\' {
      var t := s[1..];
      assert s == ['\\', t[0]] + t[1..];
      if t[0] == 'u' {
        p := CodeFound(t[1..]);
        rest := ScanCode(t[1..]).rest;
      } else {
        p, rest := Short(t[0], Unescaped(t[0]).value as int), t[1..];
      }
    } else {
      p := PlainFound(s);
      rest := s[CharLength(s)..];
    }
  }

  /** Whatever is scanned is a string of the grammar, with its meaning. */
  lemma {:induction false} ScannedIsString(s: string) returns (ps: seq<Piece>)
    requires ScanString(s).Scanned?
    ensures ArePieces(ps) && ScanString(s).value == MeantAll(ps)
    ensures s == SpelledAll(ps) + ("\"" + ScanString(s).rest)
    decreases |s|
  {
    if s[0] == '"' {
      ps := [];
      assert s == "\"" + s[1..];
    } else {
      var p, rest := NextPiece(s);
      PrependParts(Encode(Meant(p)), ScanString(rest));
      var others := ScannedIsString(rest);
      ps := [p] + others;
      assert ps[1..] == others;
      Associates(Spelled(p), SpelledAll(others), "\"" + ScanString(rest).rest);
    }
  }

  // -------------------------------------------------------------------------------------
  // Which strings are written
  // -------------------------------------------------------------------------------------

  predicate IsLower(hex: string) {
    forall c :: c in hex ==> !('A' <= c <= 'F')
  }

  /**
   The pieces that dump writes: short escapes where there are any, except for the solidus; four lower-case digits for
   the other control characters and, if only ASCII is wanted, from DEL on; and everything else as it is.
   */
  predicate IsWritten(p: Piece, ascii: bool) {
    match p
    case Plain(code) => ascii ==> code < 0x7f
    case Short(letter, _) => letter != '/'
    case Code(hex, code) =>
      IsLower(hex) && ((code < 0x20 && code !in {0x8, 0x9, 0xa, 0xc, 0xd}) || (ascii && code >= 0x7f))
    case Pair(highHex, _, lowHex, _) => IsLower(highHex) && IsLower(lowHex) && ascii
  }

  lemma Hex4Spelled(n: int)
    requires 0 <= n <= 0xffff
    ensures Hex4Is(Hex4(n), n) && IsLower(Hex4(n))
  {
    HexSpelled(n / 0x1000);
    HexSpelled(n / 0x100 % 16);
    HexSpelled(n / 0x10 % 16);
    HexSpelled(n % 16);
    assert n / 0x1000 % 16 == n / 0x1000;
  }

  lemma HexSpelled(d: int)
    requires 0 <= d < 16
    ensures HexIs(Hex(d), d) && !('A' <= Hex(d) <= 'F')
  {
  }

  lemma CodeWritten(cp: int) returns (p: Piece)
    requires IsScalar(cp)
    ensures IsPiece(p) && Meant(p) == cp && Spelled(p) == CodeEscape(cp)
    ensures if cp < 0x1_0000 then p.Code? && IsLower(p.hex) else p.Pair? && IsLower(p.highHex) && IsLower(p.lowHex)
  {
    if cp < 0x1_0000 {
      Hex4Spelled(cp);
      p := Code(Hex4(cp), cp);
    } else {
      Surrogates(cp);
      Hex4Spelled(HighSurrogate(cp));
      Hex4Spelled(LowSurrogate(cp));
      p := Pair(Hex4(HighSurrogate(cp)), HighSurrogate(cp), Hex4(LowSurrogate(cp)), LowSurrogate(cp));
    }
  }

  lemma CharWritten(c: string, ascii: bool) returns (p: Piece)
    requires CharLength(c) == |c| > 0
    ensures IsScalar(CodePoint(c, |c|)) && IsPiece(p) && IsWritten(p, ascii)
    ensures Encode(Meant(p)) == c && Spelled(p) == CharEscape(c, ascii)
  {
    CharIsEncoded(c);
    assert c[..|c|] == c;
    var cp := CodePoint(c, |c|);
    if IsShort(c[0]) {
      assert c == [c[0]];
      p := Short(ShortLetter(c[0]), cp);
    } else if c[0] as int <= 0x1f || (ascii && c[0] as int >= 0x7f) {
      p := CodeWritten(cp);
      FirstByte(c);
    } else {
      p := Plain(cp);
      FirstByte(c);
    }
  }

  /** The first byte tells ASCII characters from others. */
  lemma FirstByte(c: string)
    requires CharLength(c) == |c| > 0
    ensures var cp := CodePoint(c, |c|); if c[0] as int < 0x80 then cp == c[0] as int else cp >= 0x80
  {
    CharIsEncoded(c);
    assert c[..|c|] == c;
  }

  /** Every well-formed string is written with the pieces of dump's choice. */
  lemma {:induction false} StringWritten(s: string, ascii: bool) returns (ps: seq<Piece>)
    requires WellFormed(s)
    ensures Complete(s, ascii) && ArePieces(ps) && (forall p :: p in ps ==> IsWritten(p, ascii))
    ensures MeantAll(ps) == s && SpelledAll(ps) == EscapeText(s, ascii)
  {
    if s == [] {
      ps := [];
    } else {
      var n := CharLength(s);
      var others := StringWritten(s[n..], ascii);
      CharAlone(s);
      EscapeFirstChar(s, ascii);
      var p := CharWritten(s[..n], ascii);
      ps := [p] + others;
      assert ps[1..] == others;
    }
  }
}
