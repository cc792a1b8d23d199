/**
 UTF-8 (RFC 3629): well-formed byte sequences and their code points. A char is one byte.
 */
module Utf8 {

  predicate In(c: char, lo: int, hi: int) {
    lo <= c as int <= hi
  }

  /** A continuation byte. */
  predicate Tail(c: char) {
    In(c, 0x80, 0xbf)
  }

  /** The length of the well-formed character at the front (section 4 of RFC 3629), or 0. */
  function CharLength(s: string): (n: nat)
    ensures n <= |s| && n <= 4
  {
    if s == [] then 0
    else if In(s[0], 0x00, 0x7f) then 1
    else if In(s[0], 0xc2, 0xdf) then if |s| > 1 && Tail(s[1]) then 2 else 0
    else if In(s[0], 0xe0, 0xef) then
      if |s| > 2
         && In(s[1], if s[0] as int == 0xe0 then 0xa0 else 0x80, if s[0] as int == 0xed then 0x9f else 0xbf)
         && Tail(s[2])
      then 3 else 0
    else if In(s[0], 0xf0, 0xf4) then
      if |s| > 3
         && In(s[1], if s[0] as int == 0xf0 then 0x90 else 0x80, if s[0] as int == 0xf4 then 0x8f else 0xbf)
         && Tail(s[2]) && Tail(s[3])
      then 4 else 0
    else 0
  }

  predicate WellFormed(s: string) {
    s == [] || (CharLength(s) > 0 && WellFormed(s[CharLength(s)..]))
  }

  /** The number in the payload bits of the first n bytes. */
  function CodePoint(s: string, n: nat): int
    requires 1 <= n <= 4 && n <= |s|
  {
    match n
    case 1 => s[0] as int
    case 2 => s[0] as int % 0x20 * 0x40 + s[1] as int % 0x40
    case 3 => s[0] as int % 0x10 * 0x1000 + s[1] as int % 0x40 * 0x40 + s[2] as int % 0x40
    case _ => s[0] as int % 8 * 0x4_0000 + s[1] as int % 0x40 * 0x1000 + s[2] as int % 0x40 * 0x40 + s[3] as int % 0x40
  }

  predicate IsSurrogate(cp: int) {
    0xd800 <= cp <= 0xdfff
  }

  predicate IsScalar(cp: int) {
    0 <= cp <= 0x10_ffff && !IsSurrogate(cp)
  }

  /** The UTF-8 bytes of a code point. */
  function Encode(cp: int): (s: string)
    requires 0 <= cp <= 0x10_ffff
  {
    if cp < 0x80 then [cp as char]
    else if cp <= 0x7ff then [(0xc0 + cp / 0x40) as char, (0x80 + cp % 0x40) as char]
    else if cp <= 0xffff then
      [(0xe0 + cp / 0x1000) as char, (0x80 + cp / 0x40 % 0x40) as char, (0x80 + cp % 0x40) as char]
    else
      [(0xf0 + cp / 0x4_0000) as char, (0x80 + cp / 0x1000 % 0x40) as char,
       (0x80 + cp / 0x40 % 0x40) as char, (0x80 + cp % 0x40) as char]
  }

  /** Numbers are made of six-bit groups in one way only. */
  lemma Groups(a: nat, b: nat, c: nat, d: nat)
    requires b < 0x40 && c < 0x40 && d < 0x40
    ensures var cp := a * 0x4_0000 + b * 0x1000 + c * 0x40 + d;
      cp / 0x4_0000 == a && cp / 0x1000 % 0x40 == b && cp / 0x40 % 0x40 == c && cp % 0x40 == d
  {
    var cp := a * 0x4_0000 + b * 0x1000 + c * 0x40 + d;
    assert cp / 0x40 == a * 0x1000 + b * 0x40 + c;
    assert cp / 0x1000 == a * 0x40 + b;
  }

  lemma GroupsOf(cp: nat)
    ensures cp == cp / 0x4_0000 * 0x4_0000 + cp / 0x1000 % 0x40 * 0x1000 + cp / 0x40 % 0x40 * 0x40 + cp % 0x40
  {
    assert cp / 0x1000 == cp / 0x40 / 0x40 && cp / 0x4_0000 == cp / 0x1000 / 0x40;
  }

  lemma EncodeTwo(a: int, b: int)
    requires 0xc2 <= a <= 0xdf && 0x80 <= b <= 0xbf
    ensures var cp := a % 0x20 * 0x40 + b % 0x40;
      0x80 <= cp <= 0x7ff && Encode(cp) == [a as char, b as char]
  {
  }

  lemma Payloads(a: int, b: int)
    ensures 0xe0 <= a <= 0xef ==> a % 0x10 == a - 0xe0
    ensures 0xf0 <= a <= 0xf4 ==> a % 8 == a - 0xf0
    ensures 0x80 <= b <= 0xbf ==> b % 0x40 == b - 0x80
  {
  }

  /** Three groups of payload bits, put back into bytes. */
  lemma ThreeGroups(a: nat, b: nat, c: nat)
    requires a < 0x10 && b < 0x40 && c < 0x40 && (a == 0 ==> b >= 0x20) && (a == 0xd ==> b < 0x20)
    ensures var cp := a * 0x1000 + b * 0x40 + c;
      && 0x800 <= cp <= 0xffff && !IsSurrogate(cp)
      && Encode(cp) == [(0xe0 + a) as char, (0x80 + b) as char, (0x80 + c) as char]
  {
    Groups(0, a, b, c);
  }

  lemma EncodeThree(a: int, b: int, c: int)
    requires 0xe0 <= a <= 0xef && 0x80 <= b <= 0xbf && 0x80 <= c <= 0xbf
    requires (a == 0xe0 ==> b >= 0xa0) && (a == 0xed ==> b <= 0x9f)
    ensures var cp := a % 0x10 * 0x1000 + b % 0x40 * 0x40 + c % 0x40;
      0x800 <= cp <= 0xffff && !IsSurrogate(cp) && Encode(cp) == [a as char, b as char, c as char]
  {
    Payloads(a, b);
    Payloads(a, c);
    ThreeGroups(a - 0xe0, b - 0x80, c - 0x80);
  }

  /** Four groups of payload bits, put back into bytes. */
  lemma FourGroups(a: nat, b: nat, c: nat, d: nat)
    requires a <= 4 && b < 0x40 && c < 0x40 && d < 0x40 && (a == 0 ==> b >= 0x10) && (a == 4 ==> b < 0x10)
    ensures var cp := a * 0x4_0000 + b * 0x1000 + c * 0x40 + d;
      && 0x1_0000 <= cp <= 0x10_ffff
      && Encode(cp) == [(0xf0 + a) as char, (0x80 + b) as char, (0x80 + c) as char, (0x80 + d) as char]
  {
    Groups(a, b, c, d);
  }

  lemma EncodeFour(a: int, b: int, c: int, d: int)
    requires 0xf0 <= a <= 0xf4 && 0x80 <= b <= 0xbf && 0x80 <= c <= 0xbf && 0x80 <= d <= 0xbf
    requires (a == 0xf0 ==> b >= 0x90) && (a == 0xf4 ==> b <= 0x8f)
    ensures var cp := a % 8 * 0x4_0000 + b % 0x40 * 0x1000 + c % 0x40 * 0x40 + d % 0x40;
      0x1_0000 <= cp <= 0x10_ffff && Encode(cp) == [a as char, b as char, c as char, d as char]
  {
    Payloads(a, b);
    Payloads(a, c);
    Payloads(a, d);
    FourGroups(a - 0xf0, b - 0x80, c - 0x80, d - 0x80);
  }

  /** A well-formed character is the encoding of its code point. */
  lemma CharIsEncoded(s: string)
    requires CharLength(s) > 0
    ensures var n := CharLength(s); IsScalar(CodePoint(s, n)) && Encode(CodePoint(s, n)) == s[..n]
  {
    var n := CharLength(s);
    match n
    case 1 =>
    case 2 => EncodeTwo(s[0] as int, s[1] as int);
    case 3 => EncodeThree(s[0] as int, s[1] as int, s[2] as int);
    case _ => EncodeFour(s[0] as int, s[1] as int, s[2] as int, s[3] as int);
  }

  lemma ThreeBytes(cp: int)
    requires 0x7ff < cp <= 0xffff && !IsSurrogate(cp)
    ensures var a, b := cp / 0x1000, cp / 0x40 % 0x40;
      0 <= a <= 0xf && 0 <= b < 0x40 && (a == 0 ==> b >= 0x20) && (a == 0xd ==> b < 0x20)
  {
    GroupsOf(cp);
    assert cp / 0x4_0000 == 0 && cp / 0x1000 % 0x40 == cp / 0x1000;
  }

  lemma FourBytes(cp: int)
    requires 0xffff < cp <= 0x10_ffff
    ensures var a, b := cp / 0x4_0000, cp / 0x1000 % 0x40;
      0 <= a <= 4 && 0 <= b < 0x40 && (a == 0 ==> b >= 0x10) && (a == 4 ==> b < 0x10)
  {
    GroupsOf(cp);
  }

  /** The encoding of a scalar value is one well-formed character. */
  lemma EncodedIsChar(cp: int, rest: string)
    requires IsScalar(cp)
    ensures CharLength(Encode(cp) + rest) == |Encode(cp)| && |Encode(cp)| > 0
  {
    var e := Encode(cp);
    var s := e + rest;
    assert forall i :: 0 <= i < |e| ==> s[i] == e[i];
    if 0x7ff < cp <= 0xffff {
      ThreeBytes(cp);
    } else if cp > 0xffff {
      FourBytes(cp);
    }
  }

  /** What follows a character does not matter. */
  lemma CharLengthPrefix(s: string, t: string)
    requires CharLength(s) > 0
    ensures CharLength(s[..CharLength(s)] + t) == CharLength(s)
  {
  }
}
