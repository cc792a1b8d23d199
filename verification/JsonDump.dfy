/**
 The serializer: dumping a value as text, compact or indented, with an indent buffer that grows on the way and
 is not always large enough.
 */
module JsonDump {
  import opened Json
  import opened Keys
  import opened Wrappers
  import opened JsonString
  import opened JsonNumber

  /** The parameters of dump; floatText stands for dump_float. */
  datatype Style = Style(pretty: bool, ascii: bool, step: nat, indentChar: char, floatText: UInt64 -> string)

  // -------------------------------------------------------------------------------------
  // The text
  // -------------------------------------------------------------------------------------

  /** The serializer can escape all strings. */
  predicate Escapable(j: Json, ascii: bool) {
    match j
    case Str(s) => Complete(s, ascii)
    case Arr(a) => forall i :: 0 <= i < |a| ==> Escapable(a[i], ascii)
    case Obj(m) => forall k :: k in m ==> Complete(k, ascii) && Escapable(m[k], ascii)
    case _ => true
  }

  /** n characters of indentation: the buffer starts with 512 of the chosen ones and grows with spaces. */
  function Margin(st: Style, n: nat): (s: string)
    ensures |s| == n
  {
    seq(n, i => if i < 512 then st.indentChar else ' ')
  }

  function Break(st: Style): string {
    if st.pretty then "\n" else ""
  }

  function Lead(st: Style, n: nat): string {
    if st.pretty then Margin(st, n) else ""
  }

  /** The indentation of the children; unsigned int wraps around. */
  function Deeper(st: Style, n: nat): nat {
    if st.pretty then (n + st.step) % 0x1_0000_0000 else n
  }

  function Quoted(st: Style, s: string): string
    requires Complete(s, st.ascii)
  {
    "\"" + EscapeText(s, st.ascii) + "\""
  }

  function Text(st: Style, j: Json, n: nat): string
    requires Escapable(j, st.ascii)
    decreases j, 2, 0
  {
    match j
    case Null => "null"
    case Bool(b) => if b then "true" else "false"
    case Int(i) => IntegerText(i)
    case UInt(u) => IntegerText(u)
    case Float(bits) => st.floatText(bits)
    case Str(s) => Quoted(st, s)
    case Arr(a) =>
      if a == [] then "[]"
      else "[" + Break(st) + ElementsText(st, j, 0, Deeper(st, n)) + Break(st) + Lead(st, n) + "]"
    case Obj(m) =>
      if m == map[] then "{}"
      else "{" + Break(st) + MembersText(st, j, Sorted(m.Keys), Deeper(st, n)) + Break(st) + Lead(st, n) + "}"
  }

  /** The elements from index i on. */
  function ElementsText(st: Style, j: Json, i: nat, n: nat): string
    requires j.Arr? && i < |j.a| && Escapable(j, st.ascii)
    decreases j, 1, |j.a| - i
  {
    Lead(st, n) + Text(st, j.a[i], n)
    + if i == |j.a| - 1 then "" else "," + Break(st) + ElementsText(st, j, i + 1, n)
  }

  function MemberText(st: Style, j: Json, k: string, n: nat): string
    requires j.Obj? && k in j.m && Escapable(j, st.ascii)
    decreases j, 0, 0
  {
    Lead(st, n) + Quoted(st, k) + ":" + (if st.pretty then " " else "") + Text(st, j.m[k], n)
  }

  function MembersText(st: Style, j: Json, keys: seq<string>, n: nat): string
    requires j.Obj? && keys != [] && (forall k :: k in keys ==> k in j.m) && Escapable(j, st.ascii)
    decreases j, 1, |keys|
  {
    MemberText(st, j, keys[0], n)
    + if |keys| == 1 then "" else "," + Break(st) + MembersText(st, j, keys[1..], n)
  }

  // -------------------------------------------------------------------------------------
  // The indentation buffer
  // -------------------------------------------------------------------------------------

  /** The size of the buffer when a container at indentation n has made room for its children at c. */
  function Resized(j: Json, size: nat, c: nat): nat {
    if size >= c then size else if j.Obj? then 2 * size else c
  }

  /** The size after dumping, or None when more of the buffer is written than there is. */
  function SizeAfter(st: Style, j: Json, n: nat, size: nat): Option<nat>
    decreases j, 1, 0
  {
    if !st.pretty || !IsContainer(j) then Some(size)
    else
      var c := Deeper(st, n);
      var resized := Resized(j, size, c);
      if resized < c then None
      else
        var s := match j
          case Arr(a) => SizeAfterElements(st, j, 0, c, resized)
          case Obj(m) => SizeAfterMembers(st, j, Sorted(m.Keys), c, resized);
        if s.None? || s.value < n then None else s
  }

  function SizeAfterElements(st: Style, j: Json, i: nat, c: nat, size: nat): Option<nat>
    requires j.Arr?
    decreases j, 0, |j.a| - i
  {
    if size < c then None
    else if i >= |j.a| then Some(size)
    else
      var s := SizeAfter(st, j.a[i], c, size);
      if s.None? then None else SizeAfterElements(st, j, i + 1, c, s.value)
  }

  function SizeAfterMembers(st: Style, j: Json, keys: seq<string>, c: nat, size: nat): Option<nat>
    requires j.Obj? && forall k :: k in keys ==> k in j.m
    decreases j, 0, |keys|
  {
    if size < c then None
    else if keys == [] then Some(size)
    else
      var s := SizeAfter(st, j.m[keys[0]], c, size);
      if s.None? then None else SizeAfterMembers(st, j, keys[1..], c, s.value)
  }

  /** The buffer is large enough for the indentation and for one more step. */
  predicate Roomy(st: Style, n: nat, size: nat) {
    n <= size && st.step <= size
  }

  lemma {:induction false} ElementsFit(st: Style, j: Json, i: nat, c: nat, size: nat)
    requires st.pretty && j.Arr? && Roomy(st, c, size)
    ensures var s := SizeAfterElements(st, j, i, c, size); s.Some? && s.value >= size
    decreases j, 0, |j.a| - i
  {
    if i < |j.a| {
      RoomyFits(st, j.a[i], c, size);
      ElementsFit(st, j, i + 1, c, SizeAfter(st, j.a[i], c, size).value);
    }
  }

  lemma {:induction false} MembersFit(st: Style, j: Json, keys: seq<string>, c: nat, size: nat)
    requires st.pretty && j.Obj? && (forall k :: k in keys ==> k in j.m) && Roomy(st, c, size)
    ensures var s := SizeAfterMembers(st, j, keys, c, size); s.Some? && s.value >= size
    decreases j, 0, |keys|
  {
    if keys != [] {
      RoomyFits(st, j.m[keys[0]], c, size);
      MembersFit(st, j, keys[1..], c, SizeAfter(st, j.m[keys[0]], c, size).value);
    }
  }

  /** Below the first level doubling is always enough. */
  lemma {:induction false} RoomyFits(st: Style, j: Json, n: nat, size: nat)
    requires st.pretty && Roomy(st, n, size)
    ensures var s := SizeAfter(st, j, n, size); s.Some? && s.value >= size
    decreases j, 1, 0
  {
    if IsContainer(j) {
      var c := Deeper(st, n);
      var resized := Resized(j, size, c);
      match j
      case Arr(a) => ElementsFit(st, j, 0, c, resized);
      case Obj(m) => MembersFit(st, j, Sorted(m.Keys), c, resized);
      case _ =>
    }
  }

  /** From the root, the buffer overruns exactly for a nonempty object and a step above 1024. */
  lemma IndentationFits(st: Style, j: Json)
    requires st.pretty && st.step < 0x1_0000_0000
    ensures SizeAfter(st, j, 0, 512).None? <==> j.Obj? && j.m != map[] && st.step > 1024
  {
    if IsContainer(j) {
      var c := Deeper(st, 0);
      var resized := Resized(j, 512, c);
      if resized >= c {
        match j
        case Arr(a) => ElementsFit(st, j, 0, c, resized);
        case Obj(m) => MembersFit(st, j, Sorted(m.Keys), c, resized);
        case _ =>
      }
    }
  }

  // -------------------------------------------------------------------------------------
  // The serializer object
  // -------------------------------------------------------------------------------------

  lemma Joined(before: string, a: string, b: string, c: string, d: string)
    ensures before + (a + b + (c + d)) == before + a + b + c + d
    ensures before + (a + b) == before + a + b
  {
  }

  function Comma(st: Style): string {
    if st.pretty then ",\n" else ","
  }

  /** One element that is not the last, and the last one, as they are written. */
  lemma ElementStep(st: Style, j: Json, i: nat, n: nat, before: string)
    requires j.Arr? && i < |j.a| && Escapable(j, st.ascii)
    ensures i < |j.a| - 1 ==>
      before + ElementsText(st, j, i, n) ==
      before + Lead(st, n) + Text(st, j.a[i], n) + Comma(st) + ElementsText(st, j, i + 1, n)
    ensures i == |j.a| - 1 ==> before + ElementsText(st, j, i, n) == before + Lead(st, n) + Text(st, j.a[i], n)
  {
    var lead, text := Lead(st, n), Text(st, j.a[i], n);
    if i == |j.a| - 1 {
      Joined(before, lead, text, "", "");
      assert ElementsText(st, j, i, n) == lead + text;
    } else {
      assert "," + Break(st) == Comma(st);
      Joined(before, lead, text, Comma(st), ElementsText(st, j, i + 1, n));
    }
  }

  lemma MemberStep(st: Style, j: Json, keys: seq<string>, i: nat, n: nat, before: string)
    requires j.Obj? && i < |keys| && (forall k :: k in keys ==> k in j.m) && Escapable(j, st.ascii)
    ensures i < |keys| - 1 ==>
      before + MembersText(st, j, keys[i..], n) ==
      before + MemberText(st, j, keys[i], n) + Comma(st) + MembersText(st, j, keys[i + 1..], n)
    ensures i == |keys| - 1 ==> before + MembersText(st, j, keys[i..], n) == before + MemberText(st, j, keys[i], n)
  {
    var text := MemberText(st, j, keys[i], n);
    assert keys[i..][0] == keys[i] && keys[i..][1..] == keys[i + 1..];
    if i == |keys| - 1 {
      assert MembersText(st, j, keys[i..], n) == text;
    } else {
      assert "," + Break(st) == Comma(st);
      Joined(before, "", text, Comma(st), MembersText(st, j, keys[i + 1..], n));
      assert "" + text == text && before + "" == before;
    }
  }

  /** Brackets, breaks and contents, written one after the other. */
  lemma Wrapped(start: string, open: string, b: string, contents: string, e: string, lead: string, close: string)
    ensures start + (open + b) + contents + e + lead + close == start + (open + b + contents + e + lead + close)
  {
  }

  function Opened(st: Style, bracket: char): string {
    if st.pretty then [bracket, '\n'] else [bracket]
  }

  lemma ArrayText(st: Style, j: Json, n: nat, start: string)
    requires j.Arr? && j.a != [] && Escapable(j, st.ascii)
    ensures start + Opened(st, '[') + ElementsText(st, j, 0, Deeper(st, n)) + Break(st) + Lead(st, n) + "]" ==
      start + Text(st, j, n)
  {
    assert Opened(st, '[') == "[" + Break(st);
    Wrapped(start, "[", Break(st), ElementsText(st, j, 0, Deeper(st, n)), Break(st), Lead(st, n), "]");
  }

  lemma ObjectText(st: Style, j: Json, n: nat, start: string)
    requires j.Obj? && j.m != map[] && Escapable(j, st.ascii)
    ensures start + Opened(st, '{') + MembersText(st, j, Sorted(j.m.Keys), Deeper(st, n)) + Break(st) + Lead(st, n) + "}" ==
      start + Text(st, j, n)
  {
    assert Opened(st, '{') == "{" + Break(st);
    Wrapped(start, "{", Break(st), MembersText(st, j, Sorted(j.m.Keys), Deeper(st, n)), Break(st), Lead(st, n), "}");
  }

  lemma JoinFive(start: string, a: string, b: string, c: string, d: string, e: string, cd: string)
    requires c + d == cd
    ensures start + (a + b + c + d + e) == start + a + b + cd + e
  {
    assert a + b + c + d == a + b + cd;
    assert start + (a + b + cd + e) == start + a + b + cd + e;
  }

  lemma MemberParts(st: Style, j: Json, k: string, n: nat, start: string)
    requires j.Obj? && k in j.m && Escapable(j, st.ascii)
    ensures start + Lead(st, n) + Quoted(st, k) + (if st.pretty then ": " else ":") + Text(st, j.m[k], n) ==
      start + MemberText(st, j, k, n)
  {
    var space, colon := if st.pretty then " " else "", if st.pretty then ": " else ":";
    assert ":" + space == colon;
    JoinFive(start, Lead(st, n), Quoted(st, k), ":", space, Text(st, j.m[k], n), colon);
  }

  lemma SliceStep<T>(s: seq<T>, i: nat)
    requires i < |s|
    ensures s[i..][0] == s[i] && s[i..][1..] == s[i + 1..]
  {
  }

  class Serializer {
    const st: Style
    var out: string
    var indentString: string

    constructor (st: Style)
      ensures this.st == st && Valid() && |indentString| == 512 && out == []
    {
      this.st := st;
      out := [];
      indentString := seq(512, _ => st.indentChar);
    }

    /** The buffer holds what indentation is made of. */
    ghost predicate Valid()
      reads this
    {
      indentString == Margin(st, |indentString|)
    }

    /** As many characters of the buffer as the indentation asks for: they have to be there. */
    method WriteIndent(n: nat)
      requires Valid() && n <= |indentString|
      modifies this`out
      ensures out == old(out) + Margin(st, n)
    {
      assert indentString[..n] == Margin(st, n);
      out := out + indentString[..n];
    }

    method Write(s: string)
      modifies this`out
      ensures out == old(out) + s
    {
      out := out + s;
    }

    /** Room for the children of a container. */
    method MakeRoom(j: Json, c: nat)
      requires Valid() && |indentString| >= 512
      modifies this`indentString
      ensures Valid() && |indentString| == Resized(j, old(|indentString|), c) >= old(|indentString|)
    {
      if |indentString| < c {
        var size := if j.Obj? then 2 * |indentString| else c;
        indentString := indentString + seq(size - |indentString|, _ => ' ');
      }
    }

    method WriteString(s: string)
      requires Complete(s, st.ascii)
      modifies this`out
      ensures out == old(out) + Quoted(st, s)
    {
      var escaped := DumpEscaped(s, st.ascii);
      out := out + "\"" + escaped + "\"";
    }

    /** dump: the indentation n is used only when printing prettily. */
    method Dump(j: Json, n: nat)
      requires Valid() && Escapable(j, st.ascii) && |indentString| >= 512
      requires st.pretty ==> n <= |indentString|
      requires SizeAfter(st, j, n, |indentString|).Some?
      modifies this
      ensures out == old(out) + Text(st, j, n) && Valid()
      ensures SizeAfter(st, j, n, old(|indentString|)) == Some(|indentString|) && |indentString| >= old(|indentString|)
      decreases j, 3
    {
      match j
      case Null => Write("null");
      case Bool(b) => Write(if b then "true" else "false");
      case Int(i) =>
        var text := DumpInteger(i);
        Write(text);
      case UInt(u) =>
        var text := DumpInteger(u);
        Write(text);
      case Float(bits) => Write(st.floatText(bits));
      case Str(s) => WriteString(s);
      case Arr(a) =>
        if a == [] {
          Write("[]");
        } else if st.pretty {
          DumpArrayPretty(j, n);
        } else {
          DumpArrayCompact(j, n);
        }
      case Obj(m) =>
        if m == map[] {
          Write("{}");
        } else if st.pretty {
          DumpObjectPretty(j, n);
        } else {
          DumpObjectCompact(j, n);
        }
    }

    method DumpArrayCompact(j: Json, n: nat)
      requires Valid() && j.Arr? && j.a != [] && Escapable(j, st.ascii) && |indentString| >= 512 && !st.pretty
      modifies this
      ensures out == old(out) + Text(st, j, n) && Valid() && |indentString| == old(|indentString|)
      decreases j, 1
    {
      ArrayText(st, j, n, out);
      Unbroken(out, "[", ElementsText(st, j, 0, n), "]");
      Write("[");
      DumpElementsCompact(j, n);
      Write("]");
    }

    /** The first n - 1 elements, and the last one. */
    method DumpElementsCompact(j: Json, n: nat)
      requires Valid() && j.Arr? && j.a != [] && Escapable(j, st.ascii) && |indentString| >= 512 && !st.pretty
      modifies this
      ensures out == old(out) + ElementsText(st, j, 0, n) && Valid() && |indentString| == old(|indentString|)
      decreases j, 0
    {
      ghost var all := out + ElementsText(st, j, 0, n);
      var i := 0;
      while i < |j.a| - 1
        invariant i < |j.a| && Valid() && all == out + ElementsText(st, j, i, n) && |indentString| == old(|indentString|)
      {
        ElementStep(st, j, i, n, out);
        assert out + Lead(st, n) == out;
        Dump(j.a[i], n);
        Write(",");
        i := i + 1;
      }
      ElementStep(st, j, i, n, out);
      assert out + Lead(st, n) == out;
      Dump(j.a[i], n);
    }

    method DumpArrayPretty(j: Json, n: nat)
      requires Valid() && j.Arr? && j.a != [] && Escapable(j, st.ascii) && |indentString| >= 512 && st.pretty
      requires n <= |indentString| && SizeAfter(st, j, n, |indentString|).Some?
      modifies this
      ensures out == old(out) + Text(st, j, n) && Valid()
      ensures SizeAfter(st, j, n, old(|indentString|)) == Some(|indentString|) && |indentString| >= old(|indentString|)
      decreases j, 1
    {
      ArrayText(st, j, n, out);
      var c := Deeper(st, n);
      Write("[\n");
      MakeRoom(j, c);
      DumpElementsPretty(j, c);
      Write("\n");
      WriteIndent(n);
      Write("]");
    }

    method DumpElementsPretty(j: Json, c: nat)
      requires Valid() && j.Arr? && j.a != [] && Escapable(j, st.ascii) && |indentString| >= 512 && st.pretty
      requires SizeAfterElements(st, j, 0, c, |indentString|).Some?
      modifies this
      ensures out == old(out) + ElementsText(st, j, 0, c) && Valid()
      ensures SizeAfterElements(st, j, 0, c, old(|indentString|)) == Some(|indentString|)
      ensures |indentString| >= old(|indentString|)
      decreases j, 0
    {
      ghost var all, sizes := out + ElementsText(st, j, 0, c), SizeAfterElements(st, j, 0, c, |indentString|);
      var i := 0;
      while i < |j.a| - 1
        invariant i < |j.a| && Valid() && all == out + ElementsText(st, j, i, c)
        invariant sizes.Some? && sizes == SizeAfterElements(st, j, i, c, |indentString|)
        invariant |indentString| >= old(|indentString|)
      {
        ElementStep(st, j, i, c, out);
        WriteIndent(c);
        Dump(j.a[i], c);
        Write(",\n");
        i := i + 1;
      }
      ElementStep(st, j, i, c, out);
      WriteIndent(c);
      Dump(j.a[i], c);
    }

    method DumpObjectCompact(j: Json, n: nat)
      requires Valid() && j.Obj? && j.m != map[] && Escapable(j, st.ascii) && |indentString| >= 512 && !st.pretty
      modifies this
      ensures out == old(out) + Text(st, j, n) && Valid() && |indentString| == old(|indentString|)
      decreases j, 2
    {
      ObjectText(st, j, n, out);
      Unbroken(out, "{", MembersText(st, j, Sorted(j.m.Keys), n), "}");
      Write("{");
      DumpMembersCompact(j, Sorted(j.m.Keys), n);
      Write("}");
    }

    method DumpMembersCompact(j: Json, keys: seq<string>, n: nat)
      requires Valid() && j.Obj? && keys != [] && (forall k :: k in keys ==> k in j.m)
      requires Escapable(j, st.ascii) && |indentString| >= 512 && !st.pretty
      modifies this
      ensures out == old(out) + MembersText(st, j, keys, n) && Valid() && |indentString| == old(|indentString|)
      decreases j, 1
    {
      ghost var all := out + MembersText(st, j, keys, n);
      var cnt := 0;
      assert keys[0..] == keys;
      while cnt < |keys| - 1
        invariant cnt < |keys| && Valid() && all == out + MembersText(st, j, keys[cnt..], n)
        invariant |indentString| == old(|indentString|)
      {
        MemberStep(st, j, keys, cnt, n, out);
        DumpMemberCompact(j, keys[cnt], n);
        Write(",");
        cnt := cnt + 1;
      }
      MemberStep(st, j, keys, cnt, n, out);
      DumpMemberCompact(j, keys[cnt], n);
    }

    method DumpMemberCompact(j: Json, k: string, n: nat)
      requires Valid() && j.Obj? && k in j.m && Escapable(j, st.ascii) && |indentString| >= 512 && !st.pretty
      modifies this
      ensures out == old(out) + MemberText(st, j, k, n) && Valid() && |indentString| == old(|indentString|)
      decreases j, 0
    {
      MemberParts(st, j, k, n, out);
      assert out + Lead(st, n) == out;
      WriteString(k);
      Write(":");
      Dump(j.m[k], n);
    }

    method DumpObjectPretty(j: Json, n: nat)
      requires Valid() && j.Obj? && j.m != map[] && Escapable(j, st.ascii) && |indentString| >= 512 && st.pretty
      requires n <= |indentString| && SizeAfter(st, j, n, |indentString|).Some?
      modifies this
      ensures out == old(out) + Text(st, j, n) && Valid()
      ensures SizeAfter(st, j, n, old(|indentString|)) == Some(|indentString|) && |indentString| >= old(|indentString|)
      decreases j, 2
    {
      ObjectText(st, j, n, out);
      var c := Deeper(st, n);
      Write("{\n");
      MakeRoom(j, c);
      DumpMembersPretty(j, Sorted(j.m.Keys), c);
      Write("\n");
      WriteIndent(n);
      Write("}");
    }

    method DumpMembersPretty(j: Json, keys: seq<string>, c: nat)
      requires Valid() && j.Obj? && keys != [] && (forall k :: k in keys ==> k in j.m)
      requires Escapable(j, st.ascii) && |indentString| >= 512 && st.pretty
      requires SizeAfterMembers(st, j, keys, c, |indentString|).Some?
      modifies this
      ensures out == old(out) + MembersText(st, j, keys, c) && Valid()
      ensures SizeAfterMembers(st, j, keys, c, old(|indentString|)) == Some(|indentString|)
      ensures |indentString| >= old(|indentString|)
      decreases j, 1
    {
      ghost var all, sizes := out + MembersText(st, j, keys, c), SizeAfterMembers(st, j, keys, c, |indentString|);
      var cnt := 0;
      assert keys[0..] == keys;
      while cnt < |keys| - 1
        invariant cnt < |keys| && Valid() && all == out + MembersText(st, j, keys[cnt..], c)
        invariant sizes.Some? && sizes == SizeAfterMembers(st, j, keys[cnt..], c, |indentString|)
        invariant |indentString| >= old(|indentString|)
      {
        MemberStep(st, j, keys, cnt, c, out);
        SliceStep(keys, cnt);
        DumpMemberPretty(j, keys[cnt], c);
        Write(",\n");
        cnt := cnt + 1;
      }
      MemberStep(st, j, keys, cnt, c, out);
      SliceStep(keys, cnt);
      DumpMemberPretty(j, keys[cnt], c);
    }

    method DumpMemberPretty(j: Json, k: string, c: nat)
      requires Valid() && j.Obj? && k in j.m && Escapable(j, st.ascii) && |indentString| >= 512 && st.pretty
      requires c <= |indentString| && SizeAfter(st, j.m[k], c, |indentString|).Some?
      modifies this
      ensures out == old(out) + MemberText(st, j, k, c) && Valid()
      ensures SizeAfter(st, j.m[k], c, old(|indentString|)) == Some(|indentString|) && |indentString| >= old(|indentString|)
      decreases j, 0
    {
      MemberParts(st, j, k, c, out);
      WriteIndent(c);
      WriteString(k);
      Write(": ");
      Dump(j.m[k], c);
    }
  }

  lemma Unbroken(start: string, open: string, contents: string, close: string)
    ensures start + open + contents + "" + "" + close == start + open + contents + close
  {
    assert start + open + contents + "" + "" == start + open + contents;
  }
}
