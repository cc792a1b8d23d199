/**
 JSON pointers: reference tokens and their text (sections 3 and 4 of RFC 6901).
 */
module JsonPointer {
  import opened JsonResult

  // -------------------------------------------------------------------------------------
  // Replacing a substring
  // -------------------------------------------------------------------------------------

  /** Every occurrence of f, from the left and without overlaps, replaced by t. */
  function ReplaceAll(s: string, f: string, t: string): string
    requires f != []
  {
    if |s| < |f| then s
    else if s[..|f|] == f then t + ReplaceAll(s[|f|..], f, t)
    else [s[0]] + ReplaceAll(s[1..], f, t)
  }

  predicate OccursAt(s: string, k: nat, f: string) {
    k + |f| <= |s| && s[k..k + |f|] == f
  }

  lemma ReplaceSkip(s: string, pos: nat, f: string, t: string)
    requires f != [] && pos < |s| && !OccursAt(s, pos, f)
    ensures ReplaceAll(s[pos..], f, t) == [s[pos]] + ReplaceAll(s[pos + 1..], f, t)
  {
    assert s[pos..][1..] == s[pos + 1..];
    assert pos + |f| <= |s| ==> s[pos..][..|f|] == s[pos..pos + |f|];
    assert pos + |f| > |s| ==> s[pos..] == [s[pos]] + s[pos + 1..];
  }

  /** all is what replacing in r gives, when r is final up to pos. */
  predicate ReplacedFrom(all: string, r: string, pos: nat, f: string, t: string)
    requires f != [] && pos <= |r|
  {
    all == r[..pos] + ReplaceAll(r[pos..], f, t)
  }

  lemma ReplacedSkip(all: string, r: string, pos: nat, f: string, t: string)
    requires f != [] && pos < |r| && !OccursAt(r, pos, f)
    requires ReplacedFrom(all, r, pos, f, t)
    ensures ReplacedFrom(all, r, pos + 1, f, t)
  {
    ReplaceSkip(r, pos, f, t);
    assert r[..pos + 1] == r[..pos] + [r[pos]];
  }

  lemma {:induction false} ReplacedSkips(all: string, r: string, from: nat, end: nat, f: string, t: string)
    requires f != [] && from <= end <= |r| && forall k :: from <= k < end ==> !OccursAt(r, k, f)
    requires ReplacedFrom(all, r, from, f, t)
    ensures ReplacedFrom(all, r, end, f, t)
    decreases |r| - from
  {
    if from < end {
      ReplacedSkip(all, r, from, f, t);
      ReplacedSkips(all, r, from + 1, end, f, t);
    }
  }

  lemma ReplacedStep(all: string, r: string, pos: nat, f: string, t: string)
    requires f != [] && OccursAt(r, pos, f)
    requires ReplacedFrom(all, r, pos, f, t)
    ensures ReplacedFrom(all, r[..pos] + t + r[pos + |f|..], pos + |t|, f, t)
  {
    var rest := r[pos + |f|..];
    var next := r[..pos] + t + rest;
    assert r[pos..] == f + rest;
    ReplaceMatch(rest, f, t);
    assert next[..pos + |t|] == r[..pos] + t && next[pos + |t|..] == rest;
  }

  lemma ReplacedEnds(all: string, r: string, f: string, t: string)
    requires f != []
    ensures ReplacedFrom(ReplaceAll(r, f, t), r, 0, f, t)
    ensures ReplacedFrom(all, r, |r|, f, t) ==> all == r
  {
    assert r[0..] == r && r[..0] == [] && r[..|r|] == r && r[|r|..] == [];
  }

  /** The first occurrence of f at or after an index; |s| when there is none. */
  method Find(s: string, f: string, start: nat) returns (pos: nat)
    requires f != [] && start <= |s|
    ensures start <= pos <= |s|
    ensures pos < |s| ==> OccursAt(s, pos, f)
    ensures forall k :: start <= k < pos ==> !OccursAt(s, k, f)
  {
    pos := start;
    while pos < |s| && !OccursAt(s, pos, f)
      invariant start <= pos <= |s|
      invariant forall k :: start <= k < pos ==> !OccursAt(s, k, f)
    {
      pos := pos + 1;
    }
  }

  /** The source's loop: replace an occurrence, go on behind the replacement. */
  method ReplaceSubstring(s: string, f: string, t: string) returns (r: string)
    requires f != []
    ensures r == ReplaceAll(s, f, t)
  {
    r := s;
    ghost var all := ReplaceAll(s, f, t);
    ReplacedEnds(all, s, f, t);
    var pos := Find(r, f, 0);
    ReplacedSkips(all, r, 0, pos, f, t);
    while pos < |r|
      invariant 0 <= pos <= |r|
      invariant pos < |r| ==> OccursAt(r, pos, f)
      invariant ReplacedFrom(all, r, pos, f, t)
      decreases |r| - pos
    {
      ReplacedStep(all, r, pos, f, t);
      r := r[..pos] + t + r[pos + |f|..];
      var behind := pos + |t|;
      pos := Find(r, f, behind);
      ReplacedSkips(all, r, behind, pos, f, t);
    }
    ReplacedEnds(all, r, f, t);
  }

  // -------------------------------------------------------------------------------------
  // Escaping
  // -------------------------------------------------------------------------------------

  function Escape(s: string): string {
    ReplaceAll(ReplaceAll(s, "~", "~0"), "/", "~1")
  }

  function Unescape(s: string): string {
    ReplaceAll(ReplaceAll(s, "~1", "/"), "~0", "~")
  }

  /** One character at a time: what the two passes amount to. */
  function EscapeChars(s: string): string {
    if s == [] then []
    else (if s[0] == '~' then "~0" else if s[0] == '/' then "~1" else [s[0]]) + EscapeChars(s[1..])
  }

  /** Every tilde is followed by 0 or 1. */
  predicate ProperlyEscaped(s: string) {
    forall i :: 0 <= i < |s| && s[i] == '~' ==> i + 1 < |s| && (s[i + 1] == '0' || s[i + 1] == '1')
  }

  lemma ReplaceHead(c: char, s: string, f: string, t: string)
    requires f != [] && c != f[0]
    ensures ReplaceAll([c] + s, f, t) == [c] + ReplaceAll(s, f, t)
  {
    assert ([c] + s)[1..] == s;
    assert |f| <= |s| + 1 ==> ([c] + s)[..|f|][0] == c;
    assert |s| + 1 < |f| ==> ReplaceAll(s, f, t) == s;
  }

  lemma ReplaceMatch(s: string, f: string, t: string)
    requires f != []
    ensures ReplaceAll(f + s, f, t) == t + ReplaceAll(s, f, t)
  {
    assert (f + s)[..|f|] == f && (f + s)[|f|..] == s;
  }

  lemma {:induction false} EscapeIsCharwise(s: string)
    ensures Escape(s) == EscapeChars(s)
  {
    if s != [] {
      var rest := ReplaceAll(s[1..], "~", "~0");
      EscapeIsCharwise(s[1..]);
      assert s == [s[0]] + s[1..];
      if s[0] == '~' {
        ReplaceMatch(s[1..], "~", "~0");
        assert "~0" + rest == ['~'] + (['0'] + rest);
        ReplaceHead('~', ['0'] + rest, "/", "~1");
        ReplaceHead('0', rest, "/", "~1");
        assert Escape(s) == "~0" + EscapeChars(s[1..]);
      } else {
        ReplaceHead(s[0], s[1..], "~", "~0");
        if s[0] == '/' {
          ReplaceMatch(rest, "/", "~1");
        } else {
          ReplaceHead(s[0], rest, "/", "~1");
        }
      }
    }
  }

  /** Escaped text has no slash and only proper escapes. */
  lemma {:induction false} EscapedIsToken(s: string)
    ensures '/' !in Escape(s) && ProperlyEscaped(Escape(s))
  {
    EscapeIsCharwise(s);
    if s != [] {
      EscapedIsToken(s[1..]);
      EscapeIsCharwise(s[1..]);
      var e, rest := EscapeChars(s), EscapeChars(s[1..]);
      var n := |e| - |rest|;
      assert forall i :: n <= i < |e| ==> e[i] == rest[i - n];
    }
  }

  /** The first pass of unescaping restores the slashes. */
  function SlashesRestored(s: string): string {
    if s == [] then []
    else (if s[0] == '~' then "~0" else [s[0]]) + SlashesRestored(s[1..])
  }

  /** The escape of a tilde is no escaped slash. */
  lemma TildeStays(rest: string)
    ensures ReplaceAll("~0" + rest, "~1", "/") == "~0" + ReplaceAll(rest, "~1", "/")
  {
    var tail := ['0'] + rest;
    assert "~0" + rest == ['~'] + tail;
    assert (['~'] + tail)[..2] == "~0" && (['~'] + tail)[1..] == tail;
    ReplaceHead('0', rest, "~1", "/");
    assert ['~'] + (['0'] + ReplaceAll(rest, "~1", "/")) == "~0" + ReplaceAll(rest, "~1", "/");
  }

  lemma {:induction false} FirstPass(s: string)
    ensures ReplaceAll(EscapeChars(s), "~1", "/") == SlashesRestored(s)
  {
    if s != [] {
      FirstPass(s[1..]);
      var rest := EscapeChars(s[1..]);
      if s[0] == '~' {
        TildeStays(rest);
      } else if s[0] == '/' {
        ReplaceMatch(rest, "~1", "/");
      } else {
        ReplaceHead(s[0], rest, "~1", "/");
      }
    }
  }

  lemma {:induction false} SecondPass(s: string)
    ensures ReplaceAll(SlashesRestored(s), "~0", "~") == s
  {
    if s != [] {
      SecondPass(s[1..]);
      var rest := SlashesRestored(s[1..]);
      assert s == [s[0]] + s[1..];
      if s[0] == '~' {
        ReplaceMatch(rest, "~0", "~");
      } else {
        ReplaceHead(s[0], rest, "~0", "~");
      }
    }
  }

  lemma UnescapeInvertsEscape(s: string)
    ensures Unescape(Escape(s)) == s
  {
    EscapeIsCharwise(s);
    FirstPass(s);
    SecondPass(s);
  }

  /** A token that is properly escaped is the escape of what it denotes. */
  lemma {:induction false} ProperlyEscapedIsEscape(e: string) returns (s: string)
    requires '/' !in e && ProperlyEscaped(e)
    ensures EscapeChars(s) == e
    decreases |e|
  {
    if e == [] {
      s := [];
    } else if e[0] == '~' {
      s := ProperlyEscapedIsEscape(e[2..]);
      s := [if e[1] == '0' then '~' else '/'] + s;
      assert e == [e[0], e[1]] + e[2..];
    } else {
      s := ProperlyEscapedIsEscape(e[1..]);
      s := [e[0]] + s;
      assert e == [e[0]] + e[1..];
    }
  }

  lemma EscapeInvertsUnescape(e: string)
    requires '/' !in e && ProperlyEscaped(e)
    ensures Escape(Unescape(e)) == e
  {
    var s := ProperlyEscapedIsEscape(e);
    EscapeIsCharwise(s);
    UnescapeInvertsEscape(s);
  }

  // -------------------------------------------------------------------------------------
  // Text of a pointer
  // -------------------------------------------------------------------------------------

  function ToString(tokens: seq<string>): string {
    if tokens == [] then [] else ToString(tokens[..|tokens| - 1]) + "/" + Escape(tokens[|tokens| - 1])
  }

  /** The index of the first slash at or after start, or the length of the text. */
  function SlashFrom(s: string, start: nat): (i: nat)
    requires start <= |s|
    ensures start <= i <= |s|
    ensures i < |s| ==> s[i] == '/'
    ensures forall k :: start <= k < i ==> s[k] != '/'
    decreases |s| - start
  {
    if start == |s| || s[start] == '/' then start else SlashFrom(s, start + 1)
  }

  /** The tokens from an index on; the character before it is a slash. */
  function SplitFrom(s: string, start: nat): Result<seq<string>>
    requires start <= |s|
    decreases |s| - start
  {
    var slash := SlashFrom(s, start);
    var token := s[start..slash];
    if !ProperlyEscaped(token) then Err(BadEscape)
    else if slash == |s| then Ok([Unescape(token)])
    else
      Prepend([Unescape(token)], SplitFrom(s, slash + 1))
  }

  function Split(s: string): Result<seq<string>> {
    if s == [] then Ok([])
    else if s[0] != '/' then Err(NotAPointer)
    else SplitFrom(s, 1)
  }

  function Prepend(tokens: seq<string>, r: Result<seq<string>>): Result<seq<string>> {
    if r.Err? then r else Ok(tokens + r.value)
  }

  lemma PrependNothing(r: Result<seq<string>>)
    ensures Prepend([], r) == r
  {
    if r.Ok? {
      assert [] + r.value == r.value;
    }
  }

  lemma PrependTwice(a: seq<string>, b: seq<string>, r: Result<seq<string>>)
    ensures Prepend(a, Prepend(b, r)) == Prepend(a + b, r)
  {
    if r.Ok? {
      assert a + (b + r.value) == (a + b) + r.value;
    }
  }

  method CheckEscapes(token: string) returns (proper: bool)
    ensures proper <==> ProperlyEscaped(token)
  {
    var pos := 0;
    while pos < |token|
      invariant pos <= |token|
      invariant forall i :: 0 <= i < pos && token[i] == '~' ==> i + 1 < |token| && (token[i + 1] == '0' || token[i + 1] == '1')
    {
      if token[pos] == '~' && (pos == |token| - 1 || (token[pos + 1] != '0' && token[pos + 1] != '1')) {
        return false;
      }
      pos := pos + 1;
    }
    return true;
  }

  /** The source's loop over the slashes. */
  method SplitText(s: string) returns (r: Result<seq<string>>)
    ensures r == Split(s)
  {
    if s == [] {
      return Ok([]);
    }
    if s[0] != '/' {
      return Err(NotAPointer);
    }
    var result: seq<string> := [];
    var start := 1;
    PrependNothing(SplitFrom(s, 1));
    while true
      invariant 1 <= start <= |s|
      invariant Split(s) == Prepend(result, SplitFrom(s, start))
      decreases |s| - start
    {
      var slash := SlashFrom(s, start);
      var token := s[start..slash];
      var proper := CheckEscapes(token);
      if !proper {
        return Err(BadEscape);
      }
      var slashes := ReplaceSubstring(token, "~1", "/");
      var plain := ReplaceSubstring(slashes, "~0", "~");
      if slash == |s| {
        return Ok(result + [plain]);
      }
      PrependTwice(result, [plain], SplitFrom(s, slash + 1));
      result := result + [plain];
      start := slash + 1;
    }
  }

  lemma {:induction false} SlashAfterToken(s: string, start: nat, end: nat)
    requires start <= end <= |s| && '/' !in s[start..end] && (end == |s| || s[end] == '/')
    ensures SlashFrom(s, start) == end
    decreases end - start
  {
    if start < end {
      assert s[start] == s[start..end][0] && s[start + 1..end] == s[start..end][1..];
      SlashAfterToken(s, start + 1, end);
    }
  }

  /** The text of tokens, from the first one on. */
  function Text(tokens: seq<string>): string {
    if tokens == [] then [] else "/" + Escape(tokens[0]) + Text(tokens[1..])
  }

  lemma {:induction false} TextAppend(tokens: seq<string>, last: string)
    ensures Text(tokens + [last]) == Text(tokens) + "/" + Escape(last)
  {
    if tokens == [] {
      assert [last][1..] == [];
    } else {
      assert (tokens + [last])[1..] == tokens[1..] + [last];
      TextAppend(tokens[1..], last);
    }
  }

  lemma {:induction false} ToStringIsText(tokens: seq<string>)
    ensures ToString(tokens) == Text(tokens)
  {
    if tokens != [] {
      var n := |tokens| - 1;
      ToStringIsText(tokens[..n]);
      TextAppend(tokens[..n], tokens[n]);
      assert tokens == tokens[..n] + [tokens[n]];
    }
  }

  lemma {:induction false} SplitTokens(s: string, start: nat, tokens: seq<string>)
    requires tokens != [] && 1 <= start <= |s| && s[start - 1..] == Text(tokens)
    ensures SplitFrom(s, start) == Ok(tokens)
    decreases tokens
  {
    var e, rest := Escape(tokens[0]), Text(tokens[1..]);
    var end := start + |e|;
    TextParts(s, start, e, rest);
    if tokens[1..] == [] {
      assert rest == [] && tokens == [tokens[0]];
      SplitOne(s, start, end, tokens[0]);
    } else {
      TextStartsWithSlash(tokens[1..]);
      SplitOne(s, start, end, tokens[0]);
      SplitTokens(s, end + 1, tokens[1..]);
      PrependHead(tokens);
    }
  }

  lemma PrependHead(tokens: seq<string>)
    requires tokens != []
    ensures Prepend([tokens[0]], Ok(tokens[1..])) == Ok(tokens)
  {
    assert tokens == [tokens[0]] + tokens[1..];
  }

  lemma TextStartsWithSlash(tokens: seq<string>)
    requires tokens != []
    ensures Text(tokens) != [] && Text(tokens)[0] == '/'
  {
  }

  lemma SplitOne(s: string, start: nat, end: nat, token: string)
    requires start <= end <= |s| && s[start..end] == Escape(token) && (end == |s| || s[end] == '/')
    ensures SplitFrom(s, start) ==
      if end == |s| then Ok([token]) else Prepend([token], SplitFrom(s, end + 1))
  {
    EscapedIsToken(token);
    UnescapeInvertsEscape(token);
    SlashAfterToken(s, start, end);
  }

  lemma TextParts(s: string, start: nat, e: string, rest: string)
    requires 1 <= start <= |s| && s[start - 1..] == "/" + e + rest
    ensures start + |e| <= |s| && s[start..start + |e|] == e && s[start + |e|..] == rest
    ensures rest != [] ==> start + |e| < |s| && s[start + |e|] == rest[0]
    ensures rest == [] ==> start + |e| == |s|
  {
    var t := s[start - 1..];
    assert |t| == 1 + |e| + |rest|;
    assert s[start..start + |e|] == t[1..1 + |e|];
    assert s[start + |e|..] == t[1 + |e|..];
  }

  /** A pointer is recovered from its text, for every list of tokens. */
  lemma SplitInvertsToString(tokens: seq<string>)
    ensures Split(ToString(tokens)) == Ok(tokens)
  {
    ToStringIsText(tokens);
    if tokens != [] {
      assert Text(tokens)[0..] == Text(tokens);
      SplitTokens(Text(tokens), 1, tokens);
    }
  }

  lemma SplitInvertsText(tokens: seq<string>)
    ensures Split(Text(tokens)) == Ok(tokens)
  {
    ToStringIsText(tokens);
    SplitInvertsToString(tokens);
  }

  lemma TextInvertsSplit(s: string)
    requires Split(s).Ok?
    ensures Text(Split(s).value) == s
  {
    ToStringIsText(Split(s).value);
    ToStringInvertsSplit(s);
  }

  lemma SlashParts(s: string, start: nat, slash: nat)
    requires 1 <= start <= slash <= |s| && s[start - 1] == '/'
    ensures s[start - 1..] == "/" + s[start..slash] + s[slash..]
  {
  }

  /** The first token of what is split, and the ones behind it. */
  lemma HeadOfSplit(s: string, start: nat, tokens: seq<string>)
    requires 1 <= start <= |s| && SplitFrom(s, start) == Ok(tokens)
    ensures tokens != [] && Escape(tokens[0]) == s[start..SlashFrom(s, start)]
    ensures var slash := SlashFrom(s, start);
      if slash < |s| then SplitFrom(s, slash + 1) == Ok(tokens[1..]) else tokens[1..] == []
  {
    var slash := SlashFrom(s, start);
    EscapeInvertsUnescape(s[start..slash]);
    if slash < |s| {
      assert tokens == [Unescape(s[start..slash])] + SplitFrom(s, slash + 1).value;
    }
  }

  lemma {:induction false} TextOfSplit(s: string, start: nat, tokens: seq<string>)
    requires 1 <= start <= |s| && s[start - 1] == '/' && SplitFrom(s, start) == Ok(tokens)
    ensures Text(tokens) == s[start - 1..]
    decreases |s| - start
  {
    var slash := SlashFrom(s, start);
    HeadOfSplit(s, start, tokens);
    if slash < |s| {
      TextOfSplit(s, slash + 1, tokens[1..]);
    }
    assert Text(tokens[1..]) == s[slash..];
    assert Text(tokens) == "/" + s[start..slash] + Text(tokens[1..]);
    SlashParts(s, start, slash);
  }

  /** Every text that is accepted as a pointer is the text of its tokens. */
  lemma ToStringInvertsSplit(s: string)
    requires Split(s).Ok?
    ensures ToString(Split(s).value) == s
  {
    ToStringIsText(Split(s).value);
    if s != [] {
      TextOfSplit(s, 1, Split(s).value);
    }
  }

  /** Which texts are accepted: the empty one, and those with a leading slash and proper escapes. */
  lemma {:induction false} SplitAccepts(s: string)
    ensures Split(s).Ok? <==> s == [] || (s[0] == '/' && ProperlyEscaped(s))
  {
    if s != [] && s[0] == '/' {
      SplitFromAccepts(s, 1);
      assert ProperlyEscaped(s) <==> ProperlyEscaped(s[1..]) by {
        assert forall i :: 1 <= i < |s| ==> s[i] == s[1..][i - 1];
        assert ProperlyEscaped(s[1..]) ==> forall i :: 1 <= i < |s| && s[i] == '~' ==> s[1..][i - 1] == '~';
      }
    }
  }

  /** One token more. */
  lemma SplitStepAccepts(s: string, start: nat, slash: nat)
    requires start <= |s| && slash == SlashFrom(s, start)
    ensures slash < |s| ==> (SplitFrom(s, start).Ok? <==> ProperlyEscaped(s[start..slash]) && SplitFrom(s, slash + 1).Ok?)
    ensures slash == |s| ==> (SplitFrom(s, start).Ok? <==> ProperlyEscaped(s[start..]))
  {
    assert slash == |s| ==> s[start..slash] == s[start..];
  }

  lemma {:induction false} SplitFromAccepts(s: string, start: nat)
    requires start <= |s|
    ensures SplitFrom(s, start).Ok? <==> ProperlyEscaped(s[start..])
    decreases |s| - start
  {
    var slash := SlashFrom(s, start);
    SplitStepAccepts(s, start, slash);
    if slash < |s| {
      SplitFromAccepts(s, slash + 1);
      ProperlyEscapedTail(s, start, slash);
    }
  }

  lemma ProperlyEscapedTail(s: string, start: nat, slash: nat)
    requires start <= slash < |s| && s[slash] == '/'
    ensures ProperlyEscaped(s[start..]) <==> ProperlyEscaped(s[start..slash]) && ProperlyEscaped(s[slash + 1..])
  {
    ProperlyEscapedConcat(s[start..slash], s[slash + 1..]);
    assert s[start..] == s[start..slash] + ['/'] + s[slash + 1..];
  }

  lemma ProperlyEscapedConcat(a: string, b: string)
    ensures ProperlyEscaped(a + ['/'] + b) <==> ProperlyEscaped(a) && ProperlyEscaped(b)
  {
    var s := a + ['/'] + b;
    assert forall i :: 0 <= i < |a| ==> s[i] == a[i];
    assert s[|a|] == '/';
    assert forall i :: 0 <= i < |b| ==> s[|a| + 1 + i] == b[i];
    if ProperlyEscaped(s) {
      forall i | 0 <= i < |a| && a[i] == '~' ensures i + 1 < |a| && (a[i + 1] == '0' || a[i + 1] == '1') {
        assert s[i] == '~';
      }
      forall i | 0 <= i < |b| && b[i] == '~' ensures i + 1 < |b| && (b[i + 1] == '0' || b[i + 1] == '1') {
        assert s[|a| + 1 + i] == '~';
      }
    }
    if ProperlyEscaped(a) && ProperlyEscaped(b) {
      forall i | 0 <= i < |s| && s[i] == '~' ensures i + 1 < |s| && (s[i + 1] == '0' || s[i + 1] == '1') {
        if i < |a| {
          assert a[i] == '~';
        } else {
          assert b[i - |a| - 1] == '~';
        }
      }
    }
  }
}
