/**
 JSON strings in text: how the serializer escapes them and how the scanner reads them back.
 */
module JsonString {
  import opened Utf8
  import opened Sequences

  // -------------------------------------------------------------------------------------
  // Escaping
  // -------------------------------------------------------------------------------------

  /** The number of bytes that a first byte announces; -1 when it cannot be a first byte. */
  function BytesFollowing(u: int): (n: int)
    ensures -1 <= n <= 3
  {
    if 0 <= u <= 127 then 0
    else if 192 <= u <= 223 then 1
    else if 224 <= u <= 239 then 2
    else if 240 <= u <= 247 then 3
    else -1
  }

  /** Characters with an escape of their own: a backslash and one letter. */
  predicate IsShort(c: char) {
    c == '"' || c == '\\' || c as int in {8, 12, 10, 13, 9}
  }

  function ShortLetter(c: char): char {
    if c as int == 8 then 'b'
    else if c as int == 12 then 'f'
    else if c == '\n' then 'n'
    else if c == '\r' then 'r'
    else if c == '\t' then 't'
    else c
  }

  /** Characters that are written as \uxxxx. */
  predicate IsCoded(c: char, ascii: bool) {
    !IsShort(c) && (c as int <= 0x1f || (ascii && c as int >= 0x7f)) && BytesFollowing(c as int) >= 0
  }

  /** How many bytes one round of the loop consumes. */
  function Unit(c: char, ascii: bool): (n: nat)
    ensures 1 <= n <= 4
  {
    if IsCoded(c, ascii) then 1 + BytesFollowing(c as int) else 1
  }

  /** The code point as the serializer computes it, with masks that are wider than the payload. */
  function CodeOf(s: string): (cp: int)
    requires s != [] && 0 <= BytesFollowing(s[0] as int) < |s|
    ensures cp >= 0
  {
    match BytesFollowing(s[0] as int)
    case 0 => s[0] as int % 0x100
    case 1 => s[0] as int % 0x40 * 0x40 + s[1] as int % 0x80
    case 2 => s[0] as int % 0x20 * 0x1000 + s[1] as int % 0x80 * 0x40 + s[2] as int % 0x80
    case _ => s[0] as int % 0x10 * 0x4_0000 + s[1] as int % 0x80 * 0x1000 + s[2] as int % 0x80 * 0x40 + s[3] as int % 0x80
  }

  /** What the serializer asserts before it escapes a code point, and what the buffer leaves room for. */
  predicate Ready(s: string, ascii: bool)
    requires s != []
  {
    IsCoded(s[0], ascii) ==>
      && BytesFollowing(s[0] as int) < |s|
      && CodeOf(s) <= 0x10_ffff
      && (BytesFollowing(s[0] as int) == 3 <==> CodeOf(s) >= 0x1_0000)
  }

  predicate Complete(s: string, ascii: bool) {
    s == [] || (Ready(s, ascii) && Complete(s[Unit(s[0], ascii)..], ascii))
  }

  function Hex(d: int): char
    requires 0 <= d < 16
  {
    if d < 10 then '0' + d as char else 'a' + (d - 10) as char
  }

  function Hex4(n: int): (s: string)
    requires 0 <= n
    ensures |s| == 4
  {
    [Hex(n / 0x1000 % 16), Hex(n / 0x100 % 16), Hex(n / 0x10 % 16), Hex(n % 16)]
  }

  function HighSurrogate(cp: int): int {
    0xd800 + (cp - 0x1_0000) / 0x400
  }

  function LowSurrogate(cp: int): int {
    0xdc00 + (cp - 0x1_0000) % 0x400
  }

  function PairEscape(high: int, low: int): (s: string)
    requires 0 <= high && 0 <= low
    ensures |s| == 12
  {
    "\\u" + Hex4(high) + "\\u" + Hex4(low)
  }

  /** \uxxxx, or a surrogate pair (section 7 of RFC 7159). */
  function CodeEscape(cp: int): string
    requires 0 <= cp <= 0x10_ffff
  {
    if cp < 0x1_0000 then "\\u" + Hex4(cp) else PairEscape(HighSurrogate(cp), LowSurrogate(cp))
  }

  function Piece(s: string, ascii: bool): string
    requires s != [] && Ready(s, ascii)
  {
    if IsShort(s[0]) then ['\\', ShortLetter(s[0])]
    else if IsCoded(s[0], ascii) then CodeEscape(CodeOf(s))
    else [s[0]]
  }

  function EscapeText(s: string, ascii: bool): string
    requires Complete(s, ascii)
  {
    if s == [] then [] else Piece(s, ascii) + EscapeText(s[Unit(s[0], ascii)..], ascii)
  }

  function Extra(c: char, ascii: bool): nat {
    if IsShort(c) then 1
    else if IsCoded(c, ascii) then
      (if BytesFollowing(c as int) == 3 then 12 - 3 - 1 else 6 - BytesFollowing(c as int) - 1)
    else 0
  }

  /** extra_space. */
  function ExtraSpace(s: string, ascii: bool): nat {
    if s == [] then 0
    else Extra(s[0], ascii) + (if Unit(s[0], ascii) <= |s| then ExtraSpace(s[Unit(s[0], ascii)..], ascii) else 0)
  }

  /** The buffer has exactly the length that is needed: the closing assertion holds. */
  lemma {:induction false} EscapedLength(s: string, ascii: bool)
    requires Complete(s, ascii)
    ensures |EscapeText(s, ascii)| == |s| + ExtraSpace(s, ascii)
  {
    if s != [] {
      EscapedLength(s[Unit(s[0], ascii)..], ascii);
    }
  }

  /** Nothing to escape: the string is written as it is. */
  lemma {:induction false} NoExtraSpace(s: string, ascii: bool)
    requires Complete(s, ascii) && ExtraSpace(s, ascii) == 0
    ensures EscapeText(s, ascii) == s
  {
    if s != [] {
      NoExtraSpace(s[Unit(s[0], ascii)..], ascii);
      assert s == [s[0]] + s[1..];
    }
  }

  /** The extra space of what the loop has still to visit. */
  function ExtraFrom(s: string, i: nat, ascii: bool): nat {
    if i < |s| then ExtraSpace(s[i..], ascii) else 0
  }

  lemma ExtraStep(s: string, i: nat, ascii: bool)
    requires i < |s|
    ensures ExtraFrom(s, i, ascii) == Extra(s[i], ascii) + ExtraFrom(s, i + Unit(s[i], ascii), ascii)
  {
    var n := i + Unit(s[i], ascii);
    assert s[i..][0] == s[i];
    if n <= |s| {
      assert s[i..][n - i..] == s[n..];
    }
  }

  method ComputeExtraSpace(s: string, ascii: bool) returns (space: nat)
    ensures space == ExtraSpace(s, ascii)
  {
    space := 0;
    var i := 0;
    assert s[0..] == s;
    while i < |s|
      invariant 0 <= i
      invariant ExtraSpace(s, ascii) == space + ExtraFrom(s, i, ascii)
    {
      ExtraStep(s, i, ascii);
      space := space + Extra(s[i], ascii);
      i := i + Unit(s[i], ascii);
    }
  }

  /** From pos on the buffer still holds the backslashes it was filled with. */
  predicate Blank(a: array<char>, pos: nat)
    reads a
  {
    forall k :: pos <= k < a.Length ==> a[k] == '\\'
  }

  method WriteHex4(n: int, result: array<char>, pos: nat)
    requires 0 <= n && pos + 4 <= result.Length
    modifies result
    ensures result[..pos + 4] == old(result[..pos]) + Hex4(n)
    ensures forall k :: pos + 4 <= k < result.Length ==> result[k] == old(result[k])
  {
    result[pos] := Hex(n / 0x1000 % 16);
    result[pos + 1] := Hex(n / 0x100 % 16);
    result[pos + 2] := Hex(n / 0x10 % 16);
    result[pos + 3] := Hex(n % 16);
  }

  /** The backslash is in the buffer already. */
  method WriteCode(n: int, result: array<char>, pos: nat)
    requires 0 <= n && Blank(result, pos) && pos + 6 <= result.Length
    modifies result
    ensures result[..pos + 6] == old(result[..pos]) + ("\\u" + Hex4(n)) && Blank(result, pos + 6)
  {
    ghost var before := result[..pos];
    result[pos + 1] := 'u';
    assert result[..pos + 2] == before + "\\u";
    WriteHex4(n, result, pos + 2);
    assert before + "\\u" + Hex4(n) == before + ("\\u" + Hex4(n));
  }

  /** escape_codepoint. */
  method EscapeCodepoint(cp: int, result: array<char>, pos: nat) returns (end: nat)
    requires 0 <= cp <= 0x10_ffff && Blank(result, pos) && pos + |CodeEscape(cp)| <= result.Length
    modifies result
    ensures end == pos + |CodeEscape(cp)| && Blank(result, end)
    ensures result[..end] == old(result[..pos]) + CodeEscape(cp)
  {
    if cp < 0x1_0000 {
      WriteCode(cp, result, pos);
      return pos + 6;
    }
    var high, low := HighSurrogate(cp), LowSurrogate(cp);
    ghost var before := result[..pos];
    WriteCode(high, result, pos);
    WriteCode(low, result, pos + 6);
    assert before + ("\\u" + Hex4(high)) + ("\\u" + Hex4(low)) == before + CodeEscape(cp);
    return pos + 12;
  }

  /** One round of the loop, at pos in the buffer. */
  method EscapeUnit(s: string, i: nat, ascii: bool, result: array<char>, pos: nat) returns (end: nat)
    requires i < |s| && Ready(s[i..], ascii)
    requires Blank(result, pos) && pos + |Piece(s[i..], ascii)| <= result.Length
    modifies result
    ensures end == pos + |Piece(s[i..], ascii)| && Blank(result, end)
    ensures result[..end] == old(result[..pos]) + Piece(s[i..], ascii)
  {
    var c := s[i];
    assert s[i..][0] == c;
    if IsShort(c) {
      result[pos + 1] := ShortLetter(c);
      return pos + 2;
    }
    if IsCoded(c, ascii) {
      end := EscapeCodepoint(CodeOf(s[i..]), result, pos);
      return;
    }
    result[pos] := c;
    return pos + 1;
  }

  /** all is what is in the buffer, and the escape of what is still to be visited. */
  predicate Remains(s: string, i: nat, ascii: bool, before: string, all: string) {
    i <= |s| && Complete(s[i..], ascii) && all == before + EscapeText(s[i..], ascii)
  }

  lemma EscapeUnfolds(s: string, ascii: bool, before: string)
    requires s != [] && Complete(s, ascii)
    ensures before + EscapeText(s, ascii) ==
      before + Piece(s, ascii) + EscapeText(s[Unit(s[0], ascii)..], ascii)
  {
    Associates(before, Piece(s, ascii), EscapeText(s[Unit(s[0], ascii)..], ascii));
  }

  lemma EscapeStep(s: string, i: nat, ascii: bool, before: string, all: string)
    requires i < |s| && Remains(s, i, ascii, before, all)
    ensures Ready(s[i..], ascii) && |before| + |Piece(s[i..], ascii)| <= |all|
    ensures Remains(s, i + Unit(s[i], ascii), ascii, before + Piece(s[i..], ascii), all)
  {
    EscapeUnfolds(s[i..], ascii, before);
    assert s[i..][0] == s[i] && s[i..][Unit(s[i], ascii)..] == s[i + Unit(s[i], ascii)..];
  }

  lemma EscapeBegins(s: string, ascii: bool, before: string)
    requires Complete(s, ascii) && before == []
    ensures Remains(s, 0, ascii, before, EscapeText(s, ascii))
  {
    assert s[0..] == s && [] + EscapeText(s, ascii) == EscapeText(s, ascii);
  }

  lemma EscapeEnds(s: string, ascii: bool, before: string, all: string)
    requires Remains(s, |s|, ascii, before, all)
    ensures before == all
  {
    assert before + [] == before;
  }

  /** One round, seen from the whole string. */
  method EscapeNext(s: string, i: nat, ascii: bool, result: array<char>, pos: nat, ghost all: string) returns (end: nat)
    requires i < |s| && pos <= result.Length == |all| && Blank(result, pos)
    requires Remains(s, i, ascii, result[..pos], all)
    modifies result
    ensures pos <= end <= result.Length && Blank(result, end)
    ensures Remains(s, i + Unit(s[i], ascii), ascii, result[..end], all)
  {
    EscapeStep(s, i, ascii, result[..pos], all);
    end := EscapeUnit(s, i, ascii, result, pos);
  }

  /** The loop over the string, which fills the buffer exactly. */
  method EscapeInto(s: string, ascii: bool, result: array<char>)
    requires Complete(s, ascii) && result.Length == |EscapeText(s, ascii)| && Blank(result, 0)
    modifies result
    ensures result[..] == EscapeText(s, ascii)
  {
    ghost var all := EscapeText(s, ascii);
    var pos := 0;
    var i := 0;
    EscapeBegins(s, ascii, result[..0]);
    while i < |s|
      invariant 0 <= i <= |s| && 0 <= pos <= result.Length && Blank(result, pos)
      invariant Remains(s, i, ascii, result[..pos], all)
    {
      pos := EscapeNext(s, i, ascii, result, pos, all);
      i := i + Unit(s[i], ascii);
    }
    EscapeEnds(s, ascii, result[..pos], all);
    assert result[..pos] == result[..];
  }

  /** dump_escaped: the escaped string is built in a buffer of exactly its length. */
  method DumpEscaped(s: string, ascii: bool) returns (out: string)
    requires Complete(s, ascii)
    ensures out == EscapeText(s, ascii)
  {
    var space := ComputeExtraSpace(s, ascii);
    if space == 0 {
      NoExtraSpace(s, ascii);
      return s;
    }
    EscapedLength(s, ascii);
    var result := new char[|s| + space](_ => '\\');
    EscapeInto(s, ascii, result);
    return result[..];
  }
}
