/**
 Scanning a string token, why it inverts the escaping of a well-formed string in both modes, and
 why no other string comes back.
 */
module JsonScan {
  import opened Utf8
  import opened JsonString
  import opened Sequences

  // -------------------------------------------------------------------------------------
  // Scanning
  // -------------------------------------------------------------------------------------

  /** A scanned value and the input behind it. */
  datatype Scanned<T> = Scanned(value: T, rest: string) | Malformed

  predicate IsHex(c: char) {
    '0' <= c <= '9' || 'a' <= c <= 'f' || 'A' <= c <= 'F'
  }

  function HexValue(c: char): (d: int)
    requires IsHex(c)
    ensures 0 <= d < 16
  {
    if '0' <= c <= '9' then c as int - '0' as int
    else if 'a' <= c <= 'f' then c as int - 'a' as int + 10
    else c as int - 'A' as int + 10
  }

  /** get_codepoint: four hexadecimal digits. */
  function ScanHex4(s: string): (r: Scanned<int>)
    ensures r.Scanned? ==> 0 <= r.value <= 0xffff && |r.rest| < |s|
  {
    if |s| < 4 || !IsHex(s[0]) || !IsHex(s[1]) || !IsHex(s[2]) || !IsHex(s[3]) then Malformed
    else Scanned(HexValue(s[0]) * 0x1000 + HexValue(s[1]) * 0x100 + HexValue(s[2]) * 0x10 + HexValue(s[3]), s[4..])
  }

  /** The low surrogate that has to follow a high one. */
  function ScanLow(high: int, s: string): (r: Scanned<int>)
    requires 0xd800 <= high <= 0xdbff
    ensures r.Scanned? ==> IsScalar(r.value) && |r.rest| < |s|
  {
    if |s| < 2 || s[0] != '\\' || s[1] != 'u' then Malformed
    else
      var low := ScanHex4(s[2..]);
      if low.Malformed? || !(0xdc00 <= low.value <= 0xdfff) then Malformed
      else Scanned(high * 0x400 + low.value - 0x35f_dc00, low.rest)
  }

  /** Behind \u: one code point, or a pair of surrogates. */
  function ScanCode(s: string): (r: Scanned<int>)
    ensures r.Scanned? ==> IsScalar(r.value) && |r.rest| < |s|
  {
    var one := ScanHex4(s);
    if one.Malformed? then Malformed
    else if 0xd800 <= one.value <= 0xdbff then ScanLow(one.value, one.rest)
    else if 0xdc00 <= one.value <= 0xdfff then Malformed
    else one
  }

  /** The letters behind a backslash that stand for one character. */
  function Unescaped(c: char): Scanned<char> {
    if c == '"' || c == '\\' || c == '/' then Scanned(c, "")
    else if c == 'b' then Scanned(8 as char, "")
    else if c == 'f' then Scanned(12 as char, "")
    else if c == 'n' then Scanned('\n', "")
    else if c == 'r' then Scanned('\r', "")
    else if c == 't' then Scanned('\t', "")
    else Malformed
  }

  function Prepend(c: string, r: Scanned<string>): Scanned<string> {
    if r.Malformed? then r else Scanned(c + r.value, r.rest)
  }

  /** scan_string, behind the opening quote. */
  function ScanString(s: string): (r: Scanned<string>)
    ensures r.Scanned? ==> |r.rest| < |s|
    decreases |s|, 1
  {
    if s == [] then Malformed
    else if s[0] == '"' then Scanned([], s[1..])
    else if s[0] == '\\' then ScanEscape(s[1..])
    else if s[0] as int <= 0x1f then Malformed
    else ScanRaw(s)
  }

  /** Behind a backslash. */
  function ScanEscape(t: string): (r: Scanned<string>)
    ensures r.Scanned? ==> |r.rest| < |t|
    decreases |t|, 0
  {
    if t == [] then Malformed
    else if t[0] == 'u' then
      var code := ScanCode(t[1..]);
      if code.Malformed? then Malformed else Prepend(Encode(code.value), ScanString(code.rest))
    else
      var c := Unescaped(t[0]);
      if c.Malformed? then Malformed else Prepend([c.value], ScanString(t[1..]))
  }

  /** A character that stands for itself. */
  function ScanRaw(s: string): (r: Scanned<string>)
    ensures r.Scanned? ==> |r.rest| < |s|
    decreases |s|, 0
  {
    var n := CharLength(s);
    if n == 0 then Malformed else Prepend(s[..n], ScanString(s[n..]))
  }

  // -------------------------------------------------------------------------------------
  // Escaping, character by character
  // -------------------------------------------------------------------------------------

  /** The escape of one well-formed character. */
  function CharEscape(c: string, ascii: bool): string
    requires c != [] && |c| <= 4
    requires 0 <= CodePoint(c, |c|) <= 0x10_ffff
  {
    if IsShort(c[0]) then ['\\', ShortLetter(c[0])]
    else if c[0] as int <= 0x1f || (ascii && c[0] as int >= 0x7f) then CodeEscape(CodePoint(c, |c|))
    else c
  }

  /** On the bytes of well-formed characters the wide masks do no harm. */
  lemma Masks(b: int)
    ensures 0x80 <= b <= 0xbf ==> b % 0x80 == b % 0x40 == b - 0x80
    ensures 0xc0 <= b <= 0xdf ==> b % 0x40 == b % 0x20 == b - 0xc0
    ensures 0xe0 <= b <= 0xef ==> b % 0x20 == b % 0x10 == b - 0xe0
    ensures 0xf0 <= b <= 0xf4 ==> b % 0x10 == b % 8 == b - 0xf0
  {
  }

  lemma CodeOfChar(s: string)
    requires CharLength(s) > 0
    ensures BytesFollowing(s[0] as int) == CharLength(s) - 1 && CodeOf(s) == CodePoint(s, CharLength(s))
  {
    Masks(s[0] as int);
    forall i | 0 < i < CharLength(s) ensures s[i] as int % 0x80 == s[i] as int % 0x40 {
      Masks(s[i] as int);
    }
  }

  lemma CodePointSize(s: string)
    requires CharLength(s) > 0
    ensures var n := CharLength(s); CodePoint(s, n) <= 0x10_ffff && (n == 4 <==> CodePoint(s, n) >= 0x1_0000)
  {
    var n := CharLength(s);
    match n
    case 1 =>
    case 2 => EncodeTwo(s[0] as int, s[1] as int);
    case 3 => EncodeThree(s[0] as int, s[1] as int, s[2] as int);
    case _ => EncodeFour(s[0] as int, s[1] as int, s[2] as int, s[3] as int);
  }

  /** All bytes of the character are there, and its code point is what the serializer computes. */
  lemma CharIsReady(s: string, ascii: bool)
    requires CharLength(s) > 0
    ensures Ready(s, ascii)
    ensures IsCoded(s[0], ascii) ==> Unit(s[0], ascii) == CharLength(s) && CodeOf(s) == CodePoint(s, CharLength(s))
  {
    CodeOfChar(s);
    CodePointSize(s);
  }

  lemma PlainByte(s: string, ascii: bool)
    requires s != [] && !IsShort(s[0]) && !IsCoded(s[0], ascii) && Complete(s[1..], ascii)
    ensures Complete(s, ascii) && EscapeText(s, ascii) == [s[0]] + EscapeText(s[1..], ascii)
  {
  }

  lemma SplitFirst(s: string, n: nat, rest: string)
    requires 0 < n <= |s|
    ensures [s[0]] + (s[1..][..n - 1] + rest) == s[..n] + rest && s[1..][n - 1..] == s[n..]
  {
  }

  /** Bytes that are not coded are written one by one. */
  lemma {:induction false} PlainBytes(s: string, n: nat, ascii: bool)
    requires n <= |s| && (forall i :: 0 <= i < n ==> !IsShort(s[i]) && !IsCoded(s[i], ascii))
    requires Complete(s[n..], ascii)
    ensures Complete(s, ascii) && EscapeText(s, ascii) == s[..n] + EscapeText(s[n..], ascii)
    decreases n
  {
    if n == 0 {
      assert s[0..] == s && [] + EscapeText(s, ascii) == EscapeText(s, ascii);
    } else {
      SplitFirst(s, n, EscapeText(s[n..], ascii));
      PlainBytes(s[1..], n - 1, ascii);
      PlainByte(s, ascii);
    }
  }

  lemma CharOfPrefix(s: string)
    requires CharLength(s) > 0
    ensures var n := CharLength(s); CodePoint(s[..n], n) == CodePoint(s, n) && IsScalar(CodePoint(s, n))
  {
    CharIsEncoded(s);
  }

  /** The bytes behind the first one of a character need no escape. */
  lemma TailsArePlain(s: string, i: nat)
    requires 0 < i < CharLength(s)
    ensures !IsShort(s[i]) && !IsCoded(s[i], false) && s[i] as int >= 0x80
  {
  }

  lemma EscapeFirstChar(s: string, ascii: bool)
    requires CharLength(s) > 0 && Complete(s[CharLength(s)..], ascii)
    ensures var n := CharLength(s);
      && Complete(s, ascii) && 0 <= CodePoint(s[..n], n) <= 0x10_ffff
      && EscapeText(s, ascii) == CharEscape(s[..n], ascii) + EscapeText(s[n..], ascii)
  {
    var n := CharLength(s);
    CharIsReady(s, ascii);
    CharOfPrefix(s);
    if !IsShort(s[0]) && !IsCoded(s[0], ascii) {
      forall i | 0 <= i < n ensures !IsShort(s[i]) && !IsCoded(s[i], ascii) {
        if i > 0 {
          TailsArePlain(s, i);
        }
      }
      PlainBytes(s, n, ascii);
    }
  }

  /** Well-formed strings can be escaped in both modes. */
  lemma {:induction false} WellFormedIsComplete(s: string, ascii: bool)
    requires WellFormed(s)
    ensures Complete(s, ascii)
  {
    if s != [] {
      WellFormedIsComplete(s[CharLength(s)..], ascii);
      EscapeFirstChar(s, ascii);
    }
  }

  // -------------------------------------------------------------------------------------
  // Scanning inverts escaping
  // -------------------------------------------------------------------------------------

  lemma HexDigits(n: int)
    requires 0 <= n <= 0xffff
    ensures n / 0x1000 % 16 * 0x1000 + n / 0x100 % 16 * 0x100 + n / 0x10 % 16 * 0x10 + n % 16 == n
  {
    assert n / 0x10 == n / 0x100 * 16 + n / 0x10 % 16;
    assert n / 0x100 == n / 0x1000 * 16 + n / 0x100 % 16;
    assert n / 0x1000 % 16 == n / 0x1000;
  }

  lemma HexRead(d: int)
    requires 0 <= d < 16
    ensures IsHex(Hex(d)) && HexValue(Hex(d)) == d
  {
  }

  lemma Hex4Read(n: int, t: string)
    requires 0 <= n <= 0xffff
    ensures ScanHex4(Hex4(n) + t) == Scanned(n, t)
  {
    HexDigits(n);
    HexRead(n / 0x1000 % 16);
    HexRead(n / 0x100 % 16);
    HexRead(n / 0x10 % 16);
    HexRead(n % 16);
    var s := Hex4(n) + t;
    assert s[4..] == t;
    assert s[0] == Hex4(n)[0] && s[1] == Hex4(n)[1] && s[2] == Hex4(n)[2] && s[3] == Hex4(n)[3];
  }

  /** The surrogates of a code point add up to it again. */
  lemma Surrogates(cp: int)
    requires 0x1_0000 <= cp <= 0x10_ffff
    ensures 0xd800 <= HighSurrogate(cp) <= 0xdbff && 0xdc00 <= LowSurrogate(cp) <= 0xdfff
    ensures HighSurrogate(cp) * 0x400 + LowSurrogate(cp) - 0x35f_dc00 == cp
  {
  }

  lemma EscapeStarts(x: string)
    ensures ("\\u" + x)[0] == '\\' && ("\\u" + x)[1] == 'u' && ("\\u" + x)[2..] == x
  {
  }

  lemma LowScanned(high: int, s: string, low: int, t: string)
    requires 0xd800 <= high <= 0xdbff && 0xdc00 <= low <= 0xdfff
    requires |s| >= 2 && s[0] == '\\' && s[1] == 'u' && ScanHex4(s[2..]) == Scanned(low, t)
    ensures ScanLow(high, s) == Scanned(high * 0x400 + low - 0x35f_dc00, t)
  {
  }

  lemma LowRead(high: int, low: int, t: string)
    requires 0xd800 <= high <= 0xdbff && 0xdc00 <= low <= 0xdfff
    ensures ScanLow(high, "\\u" + (Hex4(low) + t)) == Scanned(high * 0x400 + low - 0x35f_dc00, t)
  {
    EscapeStarts(Hex4(low) + t);
    Hex4Read(low, t);
    LowScanned(high, "\\u" + (Hex4(low) + t), low, t);
  }

  /** The first half of a pair, and what follows. */
  lemma HighRead(high: int, rest: string)
    requires 0xd800 <= high <= 0xdbff
    ensures ScanCode(Hex4(high) + rest) == ScanLow(high, rest)
  {
    Hex4Read(high, rest);
  }

  lemma PairRead(high: int, low: int, t: string)
    requires 0xd800 <= high <= 0xdbff && 0xdc00 <= low <= 0xdfff
    ensures ScanCode(Hex4(high) + ("\\u" + (Hex4(low) + t))) == Scanned(high * 0x400 + low - 0x35f_dc00, t)
  {
    HighRead(high, "\\u" + (Hex4(low) + t));
    LowRead(high, low, t);
  }

  lemma PairParts(high: int, low: int, t: string)
    requires 0 <= high && 0 <= low
    ensures PairEscape(high, low)[..2] == "\\u"
    ensures PairEscape(high, low)[2..] + t == Hex4(high) + ("\\u" + (Hex4(low) + t))
  {
  }

  /** Behind the first \u of its escape, a code point is scanned. */
  lemma CodeRead(cp: int, t: string)
    requires IsScalar(cp)
    ensures |CodeEscape(cp)| > 2 && CodeEscape(cp)[..2] == "\\u"
    ensures ScanCode(CodeEscape(cp)[2..] + t) == Scanned(cp, t)
  {
    if cp < 0x1_0000 {
      Hex4Read(cp, t);
      assert CodeEscape(cp)[2..] == Hex4(cp);
    } else {
      Surrogates(cp);
      PairParts(HighSurrogate(cp), LowSurrogate(cp), t);
      PairRead(HighSurrogate(cp), LowSurrogate(cp), t);
    }
  }

  lemma BehindEscape(e: string, t: string)
    requires |e| > 2 && e[..2] == "\\u"
    ensures (e + t)[0] == '\\' && (e + t)[1..][0] == 'u' && (e + t)[1..][1..] == e[2..] + t
  {
    assert e[0] == e[..2][0] && e[1] == e[..2][1];
  }

  lemma CodeEscapeRead(cp: int, t: string)
    requires IsScalar(cp)
    ensures ScanString(CodeEscape(cp) + t) == Prepend(Encode(cp), ScanString(t))
  {
    CodeRead(cp, t);
    BehindEscape(CodeEscape(cp), t);
  }

  lemma ShortRead(c: char, t: string)
    requires IsShort(c)
    ensures ScanString(['\\', ShortLetter(c)] + t) == Prepend([c], ScanString(t))
  {
    var s := ['\\', ShortLetter(c)] + t;
    assert s[0] == '\\' && s[1..][0] == ShortLetter(c) && s[1..][1..] == t;
  }

  lemma RawRead(c: string, t: string)
    requires CharLength(c) == |c| > 0 && c[0] as int > 0x1f && !IsShort(c[0])
    ensures ScanString(c + t) == Prepend(c, ScanString(t))
  {
    CharLengthPrefix(c, t);
    assert c[..|c|] == c && (c + t)[..|c|] == c && (c + t)[|c|..] == t;
  }

  /** One character, escaped and scanned. */
  lemma CharRead(c: string, ascii: bool, t: string)
    requires CharLength(c) == |c| > 0
    ensures 0 <= CodePoint(c, |c|) <= 0x10_ffff
    ensures ScanString(CharEscape(c, ascii) + t) == Prepend(c, ScanString(t))
  {
    CharIsEncoded(c);
    assert c[..|c|] == c;
    if IsShort(c[0]) {
      assert c == [c[0]];
      ShortRead(c[0], t);
    } else if c[0] as int <= 0x1f || (ascii && c[0] as int >= 0x7f) {
      CodeEscapeRead(CodePoint(c, |c|), t);
    } else {
      RawRead(c, t);
    }
  }

  lemma PrependTwice(c: string, s: string, rest: string)
    ensures Prepend(c, Scanned(s, rest)) == Scanned(c + s, rest)
  {
  }

  lemma CharAlone(s: string)
    requires CharLength(s) > 0
    ensures CharLength(s[..CharLength(s)]) == CharLength(s) && s[..CharLength(s)] + s[CharLength(s)..] == s
  {
    CharLengthPrefix(s, []);
    assert s[..CharLength(s)] + [] == s[..CharLength(s)];
  }

  /** The first character, given that the rest comes back. */
  lemma FirstCharRead(s: string, ascii: bool, quote: string, rest: string)
    requires CharLength(s) > 0 && Complete(s[CharLength(s)..], ascii)
    requires ScanString(EscapeText(s[CharLength(s)..], ascii) + quote) == Scanned(s[CharLength(s)..], rest)
    ensures Complete(s, ascii) && ScanString(EscapeText(s, ascii) + quote) == Scanned(s, rest)
  {
    var n := CharLength(s);
    var c, tail := s[..n], s[n..];
    EscapeFirstChar(s, ascii);
    CharAlone(s);
    CharRead(c, ascii, EscapeText(tail, ascii) + quote);
    Associates(CharEscape(c, ascii), EscapeText(tail, ascii), quote);
    PrependTwice(c, tail, rest);
  }

  /** scan_string inverts dump_escaped in both modes, for every well-formed string. */
  lemma {:induction false} ScanInvertsEscape(s: string, ascii: bool, rest: string)
    requires WellFormed(s)
    ensures Complete(s, ascii)
    ensures ScanString(EscapeText(s, ascii) + ("\"" + rest)) == Scanned(s, rest)
    decreases |s|
  {
    if s == [] {
      assert [] + ("\"" + rest) == "\"" + rest && ("\"" + rest)[1..] == rest;
    } else {
      ScanInvertsEscape(s[CharLength(s)..], ascii, rest);
      FirstCharRead(s, ascii, "\"" + rest, rest);
    }
  }

  lemma UnescapedIsChar(c: char)
    requires Unescaped(c).Scanned?
    ensures IsScalar(Unescaped(c).value as int) && Encode(Unescaped(c).value as int) == [Unescaped(c).value]
  {
  }

  lemma PrependParts(c: string, r: Scanned<string>)
    requires Prepend(c, r).Scanned?
    ensures r.Scanned? && Prepend(c, r).value == c + r.value
  {
  }

  /** A scanned string that is not at its end begins with an encoded code point. */
  lemma NextCode(s: string) returns (cp: int, rest: string)
    requires ScanString(s).Scanned? && s[0] != '"'
    ensures IsScalar(cp) && |rest| < |s| && ScanString(s) == Prepend(Encode(cp), ScanString(rest))
  {
    if s[0] == '\\' {
      var t := s[1..];
      if t[0] == 'u' {
        cp, rest := ScanCode(t[1..]).value, ScanCode(t[1..]).rest;
      } else {
        UnescapedIsChar(t[0]);
        cp, rest := Unescaped(t[0]).value as int, t[1..];
      }
    } else {
      CharIsEncoded(s);
      cp, rest := CodePoint(s, CharLength(s)), s[CharLength(s)..];
    }
  }

  /** Whatever is scanned is well-formed, so no other string comes back. */
  lemma {:induction false} ScannedIsWellFormed(s: string)
    requires ScanString(s).Scanned?
    ensures WellFormed(ScanString(s).value)
    decreases |s|
  {
    if s[0] != '"' {
      var cp, rest := NextCode(s);
      PrependParts(Encode(cp), ScanString(rest));
      ScannedIsWellFormed(rest);
      OneChar(Encode(cp), ScanString(rest).value, cp);
    }
  }

  lemma OneChar(c: string, t: string, cp: int)
    requires IsScalar(cp) && c == Encode(cp) && WellFormed(t)
    ensures WellFormed(c + t)
  {
    EncodedIsChar(cp, t);
    assert (c + t)[|c|..] == t;
  }
}
