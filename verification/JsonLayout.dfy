/**
 The layout of a dumped value, seen from its tokens: what stands before each of them.
 */
module JsonLayout {
  import opened Json
  import opened Keys
  import opened JsonString
  import opened JsonNumber
  import opened JsonParse
  import opened ValueGrammar
  import opened JsonDump
  import opened Sequences

  // -------------------------------------------------------------------------------------
  // The tokens of a value
  // -------------------------------------------------------------------------------------

  function IntegerToken(x: int): Token
    requires -0x8000_0000_0000_0000 <= x < 0x1_0000_0000_0000_0000
  {
    if x < 0 then ValueInteger(x) else ValueUnsigned(x)
  }

  function TreeOf(j: Json): Tree
    decreases j, 1, 0
  {
    match j
    case Null => Scalar(LiteralNull)
    case Bool(b) => Scalar(if b then LiteralTrue else LiteralFalse)
    case Int(i) => Scalar(IntegerToken(i))
    case UInt(u) => Scalar(IntegerToken(u))
    case Float(bits) => Scalar(ValueFloat(bits))
    case Str(s) => Scalar(ValueString(s))
    case Arr(a) => Array(ElementTrees(j, 0))
    case Obj(m) => Object(MemberTrees(j, Sorted(m.Keys)))
  }

  function ElementTrees(j: Json, i: nat): seq<Tree>
    requires j.Arr? && i <= |j.a|
    decreases j, 0, |j.a| - i
  {
    if i == |j.a| then [] else [TreeOf(j.a[i])] + ElementTrees(j, i + 1)
  }

  function MemberTrees(j: Json, keys: seq<string>): seq<Member>
    requires j.Obj? && forall k :: k in keys ==> k in j.m
    decreases j, 0, |keys|
  {
    if keys == [] then [] else [Member(keys[0], TreeOf(j.m[keys[0]]))] + MemberTrees(j, keys[1..])
  }

  function TokensOf(j: Json): seq<Token> {
    Yield(TreeOf(j))
  }

  function ElementTokens(j: Json, i: nat): seq<Token>
    requires j.Arr? && i < |j.a|
  {
    ElementYield(ElementTrees(j, i))
  }

  function MemberTokens(j: Json, keys: seq<string>): seq<Token>
    requires j.Obj? && keys != [] && forall k :: k in keys ==> k in j.m
  {
    MemberYield(MemberTrees(j, keys))
  }

  lemma EmptyTokens()
    ensures TokensOf(Arr([])) == [BeginArray, EndArray]
    ensures TokensOf(Obj(map[])) == [BeginObject, EndObject]
  {
    assert ElementTrees(Arr([]), 0) == [] && MemberTrees(Obj(map[]), Sorted({})) == [];
  }

  lemma ArrayTokens(j: Json)
    requires j.Arr? && j.a != []
    ensures TokensOf(j) == [BeginArray] + ElementTokens(j, 0) + [EndArray]
  {
  }

  lemma ObjectTokens(j: Json)
    requires j.Obj? && j.m != map[]
    ensures TokensOf(j) == [BeginObject] + MemberTokens(j, Sorted(j.m.Keys)) + [EndObject]
  {
  }

  lemma NextElementTokens(j: Json, i: nat)
    requires j.Arr? && i < |j.a|
    ensures ElementTokens(j, i)
      == TokensOf(j.a[i]) + if i == |j.a| - 1 then [] else [ValueSeparator] + ElementTokens(j, i + 1)
  {
    assert ElementTrees(j, i)[1..] == ElementTrees(j, i + 1);
    assert i + 1 < |j.a| ==> ElementTrees(j, i + 1)[0] == TreeOf(j.a[i + 1]);
  }

  lemma NextMemberTokens(j: Json, keys: seq<string>)
    requires j.Obj? && keys != [] && forall k :: k in keys ==> k in j.m
    ensures MemberTokens(j, keys) == KeyYield(keys[0]) + TokensOf(j.m[keys[0]])
      + if |keys| == 1 then [] else [ValueSeparator] + MemberTokens(j, keys[1..])
  {
    assert MemberTrees(j, keys)[1..] == MemberTrees(j, keys[1..]);
    assert |keys| > 1 ==> MemberTrees(j, keys[1..])[0] == Member(keys[1], TreeOf(j.m[keys[1]]));
    Associates(KeyYield(keys[0]), TokensOf(j.m[keys[0]]),
      if |keys| == 1 then [] else [ValueSeparator] + MemberTokens(j, keys[1..]));
  }

  // -------------------------------------------------------------------------------------
  // The layout
  // -------------------------------------------------------------------------------------

  predicate Opens(t: Token) {
    t == BeginArray || t == BeginObject
  }

  predicate Closes(t: Token) {
    t == EndArray || t == EndObject
  }

  /** The brackets that are open behind the token t, when so many are open before it. */
  function Behind(t: Token, open: nat): nat {
    if Opens(t) then open + 1 else if Closes(t) && open > 0 then open - 1 else open
  }

  /** A new line, indented by one step for each open bracket: an unsigned int, and from column 512 on spaces. */
  function Line(st: Style, open: nat): string {
    "\n" + seq(open * st.step % 0x1_0000_0000, i => if i < 512 then st.indentChar else ' ')
  }

  /** What stands before the token t, which follows the token prev inside so many open brackets. */
  function Gap(st: Style, prev: Token, open: nat, t: Token): string {
    if !st.pretty || prev == Uninitialized || (Opens(prev) && Closes(t)) then ""
    else if Opens(prev) || Closes(t) || prev == ValueSeparator then Line(st, if Closes(t) then Behind(t, open) else open)
    else if prev == NameSeparator then " "
    else ""
  }

  function Lexeme(st: Style, t: Token): string {
    match t
    case LiteralTrue => "true"
    case LiteralFalse => "false"
    case LiteralNull => "null"
    case ValueString(s) => if Complete(s, st.ascii) then Quoted(st, s) else ""
    case ValueUnsigned(u) => IntegerText(u)
    case ValueInteger(i) => IntegerText(i)
    case ValueFloat(bits) => st.floatText(bits)
    case BeginArray => "["
    case EndArray => "]"
    case BeginObject => "{"
    case EndObject => "}"
    case NameSeparator => ":"
    case ValueSeparator => ","
    case _ => ""
  }

  /** The tokens one after the other, each behind its gap. */
  function LaidOut(st: Style, prev: Token, open: nat, ts: seq<Token>): string
    decreases |ts|
  {
    if ts == [] then ""
    else Gap(st, prev, open, ts[0]) + Lexeme(st, ts[0]) + LaidOut(st, ts[0], Behind(ts[0], open), ts[1..])
  }

  // -------------------------------------------------------------------------------------
  // Pieces
  // -------------------------------------------------------------------------------------

  /** From behind prev to last, the tokens ts are laid out as x, whatever follows. */
  ghost predicate Lays(st: Style, prev: Token, open: nat, ts: seq<Token>, x: string, last: Token, after: nat) {
    forall more {:trigger LaidOut(st, prev, open, ts + more)} ::
      LaidOut(st, prev, open, ts + more) == x + LaidOut(st, last, after, more)
  }

  lemma LaysThen(st: Style, prev: Token, open: nat, xs: seq<Token>, x: string, mid: Token, inner: nat,
      ys: seq<Token>, y: string, last: Token, after: nat)
    requires Lays(st, prev, open, xs, x, mid, inner) && Lays(st, mid, inner, ys, y, last, after)
    ensures Lays(st, prev, open, xs + ys, x + y, last, after)
  {
    forall more ensures LaidOut(st, prev, open, xs + ys + more) == x + y + LaidOut(st, last, after, more) {
      Associates(xs, ys, more);
      Associates(x, y, LaidOut(st, last, after, more));
    }
  }

  lemma OneLays(st: Style, prev: Token, open: nat, t: Token, gap: string, x: string, after: nat)
    requires gap == Gap(st, prev, open, t) && x == Lexeme(st, t) && after == Behind(t, open)
    ensures Lays(st, prev, open, [t], gap + x, t, after)
  {
    forall more ensures LaidOut(st, prev, open, [t] + more) == gap + x + LaidOut(st, t, after, more) {
      assert ([t] + more)[0] == t && ([t] + more)[1..] == more;
    }
  }

  /** Indentation by so many steps. */
  predicate IsAt(st: Style, n: nat, open: nat) {
    st.pretty ==> n == open * st.step % 0x1_0000_0000
  }

  lemma DeeperIsAt(st: Style, n: nat, open: nat)
    requires IsAt(st, n, open)
    ensures IsAt(st, Deeper(st, n), open + 1)
  {
    if st.pretty {
      assert (open + 1) * st.step == open * st.step + st.step;
      WrapsTwice(open * st.step, st.step);
    }
  }

  lemma WrapsTwice(x: nat, y: nat)
    ensures (x % 0x1_0000_0000 + y) % 0x1_0000_0000 == (x + y) % 0x1_0000_0000
  {
  }

  /** The line is the break and the lead of the serializer. */
  lemma LineIsLead(st: Style, n: nat, open: nat)
    requires IsAt(st, n, open)
    ensures st.pretty ==> Line(st, open) == Break(st) + Lead(st, n)
    ensures !st.pretty ==> Break(st) + Lead(st, n) == ""
  {
  }

  // -------------------------------------------------------------------------------------
  // The text of a value
  // -------------------------------------------------------------------------------------

  /** A token behind which a bracket closes on a line of its own, and a comma stands without a gap. */
  predicate Ends(t: Token) {
    IsScalar(t) || Closes(t)
  }

  /** Before a value, whatever it is. */
  function Ahead(st: Style, prev: Token, open: nat): string {
    Gap(st, prev, open, LiteralNull)
  }

  /** The text of j is the layout of its tokens, apart from what stands before it. */
  ghost predicate Shows(st: Style, j: Json, n: nat, open: nat)
    requires Escapable(j, st.ascii)
  {
    forall prev :: Lays(st, prev, open, TokensOf(j), Ahead(st, prev, open) + Text(st, j, n), Final(j), open)
  }

  function Final(j: Json): (t: Token)
    ensures Ends(t)
  {
    match j
    case Arr(_) => EndArray
    case Obj(_) => EndObject
    case Null => LiteralNull
    case Bool(b) => if b then LiteralTrue else LiteralFalse
    case Int(i) => IntegerToken(i)
    case UInt(u) => IntegerToken(u)
    case Float(bits) => ValueFloat(bits)
    case Str(s) => ValueString(s)
  }

  lemma ScalarShows(st: Style, j: Json, n: nat, open: nat)
    requires !j.Arr? && !j.Obj? && Escapable(j, st.ascii)
    ensures Shows(st, j, n, open)
  {
    var t := Final(j);
    assert TokensOf(j) == [t];
    forall prev ensures Lays(st, prev, open, TokensOf(j), Ahead(st, prev, open) + Text(st, j, n), t, open) {
      OneLays(st, prev, open, t, Ahead(st, prev, open), Text(st, j, n), open);
    }
  }

  lemma EmptyShows(st: Style, j: Json, n: nat, open: nat, o: Token, os: string, c: Token, cs: string)
    requires Escapable(j, st.ascii) && Matching(o, os, c, cs)
    requires TokensOf(j) == [o, c] && Text(st, j, n) == os + cs && Final(j) == c
    ensures Shows(st, j, n, open)
  {
    forall prev ensures Lays(st, prev, open, TokensOf(j), Ahead(st, prev, open) + Text(st, j, n), c, open) {
      PairLays(st, prev, open, o, os, c, cs);
    }
  }

  lemma EmptyText(st: Style, n: nat)
    ensures Text(st, Arr([]), n) == "[" + "]" && Text(st, Obj(map[]), n) == "{" + "}"
  {
  }

  predicate Matching(o: Token, os: string, c: Token, cs: string) {
    (o, os, c, cs) in {(BeginArray, "[", EndArray, "]"), (BeginObject, "{", EndObject, "}")}
  }

  lemma PairLays(st: Style, prev: Token, open: nat, o: Token, os: string, c: Token, cs: string)
    requires Matching(o, os, c, cs)
    ensures Lays(st, prev, open, [o, c], Ahead(st, prev, open) + (os + cs), c, open)
  {
    OneLays(st, prev, open, o, Ahead(st, prev, open), os, open + 1);
    OneLays(st, o, open + 1, c, "", cs, open);
    var ahead := Ahead(st, prev, open);
    LaysThen(st, prev, open, [o], ahead + os, o, open + 1, [c], "" + cs, c, open);
    assert [o] + [c] == [o, c];
    PairJoined(ahead, os, cs);
  }

  lemma PairJoined(ahead: string, os: string, cs: string)
    ensures ahead + os + ("" + cs) == ahead + (os + cs)
  {
  }

  /** Where the brackets around contents stand. */
  lemma BracketGaps(st: Style, prev: Token, open: nat, n: nat, o: Token, os: string, last: Token, c: Token, cs: string)
    requires Matching(o, os, c, cs) && IsAt(st, n, open) && Ends(last)
    ensures Gap(st, prev, open, o) == Ahead(st, prev, open) && Lexeme(st, o) == os && Behind(o, open) == open + 1
    ensures Gap(st, last, open + 1, c) == Break(st) + Lead(st, n) && Lexeme(st, c) == cs && Behind(c, open + 1) == open
  {
    LineIsLead(st, n, open);
  }

  /** Brackets around contents. */
  lemma BracketsLay(st: Style, prev: Token, open: nat, n: nat, o: Token, os: string, xs: seq<Token>, x: string,
      last: Token, c: Token, cs: string)
    requires Matching(o, os, c, cs) && IsAt(st, n, open) && Ends(last)
    requires Lays(st, o, open + 1, xs, Break(st) + x, last, open + 1)
    ensures Lays(st, prev, open, [o] + xs + [c],
      Ahead(st, prev, open) + (os + Break(st) + x + Break(st) + Lead(st, n) + cs), c, open)
  {
    BracketGaps(st, prev, open, n, o, os, last, c, cs);
    Enclosed(st, prev, open, Ahead(st, prev, open), o, os, xs, Break(st), x, last, Lead(st, n), c, cs);
  }

  lemma Enclosed(st: Style, prev: Token, open: nat, ahead: string, o: Token, os: string, xs: seq<Token>, b: string, x: string,
      last: Token, lead: string, c: Token, cs: string)
    requires ahead == Gap(st, prev, open, o) && os == Lexeme(st, o) && open + 1 == Behind(o, open)
    requires b + lead == Gap(st, last, open + 1, c) && cs == Lexeme(st, c) && open == Behind(c, open + 1)
    requires Lays(st, o, open + 1, xs, b + x, last, open + 1)
    ensures Lays(st, prev, open, [o] + xs + [c], ahead + (os + b + x + b + lead + cs), c, open)
  {
    OneLays(st, prev, open, o, ahead, os, open + 1);
    OneLays(st, last, open + 1, c, b + lead, cs, open);
    LaysThen(st, prev, open, [o], ahead + os, o, open + 1, xs, b + x, last, open + 1);
    LaysThen(st, prev, open, [o] + xs, ahead + os + (b + x), last, open + 1, [c], b + lead + cs, c, open);
    BracketsJoined(ahead, os, b, x, lead, cs);
  }

  lemma BracketsJoined(a: string, o: string, b: string, x: string, l: string, c: string)
    ensures a + o + (b + x) + (b + l + c) == a + (o + b + x + b + l + c)
  {
  }

  /** A part behind an opening bracket or a comma. */
  predicate Starts(prev: Token) {
    Opens(prev) || prev == ValueSeparator
  }

  lemma AheadIsLead(st: Style, prev: Token, n: nat, open: nat, t: Token)
    requires Starts(prev) && IsAt(st, n, open) && !Closes(t)
    ensures Gap(st, prev, open, t) == Break(st) + Lead(st, n)
  {
    LineIsLead(st, n, open);
  }

  /** A part, a comma and the parts behind it. */
  lemma CommaLays(st: Style, prev: Token, open: nat, xs: seq<Token>, x: string, mid: Token,
      ys: seq<Token>, y: string, last: Token)
    requires Ends(mid) && Lays(st, prev, open, xs, x, mid, open) && Lays(st, ValueSeparator, open, ys, Break(st) + y, last, open)
    ensures Lays(st, prev, open, xs + ([ValueSeparator] + ys), x + ("," + Break(st) + y), last, open)
  {
    OneLays(st, mid, open, ValueSeparator, "", ",", open);
    LaysThen(st, mid, open, [ValueSeparator], "" + ",", ValueSeparator, open, ys, Break(st) + y, last, open);
    LaysThen(st, prev, open, xs, x, mid, open, [ValueSeparator] + ys, "" + "," + (Break(st) + y), last, open);
    CommaJoined(Break(st), y);
  }

  lemma CommaJoined(b: string, y: string)
    ensures "" + "," + (b + y) == "," + b + y
  {
  }

  lemma FirstLays(st: Style, v: Json, prev: Token, n: nat, open: nat)
    requires Escapable(v, st.ascii) && Starts(prev) && IsAt(st, n, open) && Shows(st, v, n, open)
    ensures Lays(st, prev, open, TokensOf(v), Break(st) + (Lead(st, n) + Text(st, v, n)), Final(v), open)
  {
    AheadIsLead(st, prev, n, open, LiteralNull);
    Associates(Break(st), Lead(st, n), Text(st, v, n));
    assert Lays(st, prev, open, TokensOf(v), Ahead(st, prev, open) + Text(st, v, n), Final(v), open);
  }

  lemma {:induction false} ElementsLay(st: Style, j: Json, i: nat, prev: Token, n: nat, open: nat) returns (last: Token)
    requires j.Arr? && i < |j.a| && Escapable(j, st.ascii) && Starts(prev) && IsAt(st, n, open)
    requires forall k :: 0 <= k < |j.a| ==> Shows(st, j.a[k], n, open)
    ensures Ends(last) && Lays(st, prev, open, ElementTokens(j, i), Break(st) + ElementsText(st, j, i, n), last, open)
    decreases |j.a| - i
  {
    var xs, text := TokensOf(j.a[i]), Lead(st, n) + Text(st, j.a[i], n);
    FirstLays(st, j.a[i], prev, n, open);
    NextElementTokens(j, i);
    last := Final(j.a[i]);
    if i == |j.a| - 1 {
      Unpadded(xs);
      Unpadded(text);
    } else {
      var mid := last;
      last := ElementsLay(st, j, i + 1, ValueSeparator, n, open);
      CommaLays(st, prev, open, xs, Break(st) + text, mid, ElementTokens(j, i + 1), ElementsText(st, j, i + 1, n), last);
      Associates(Break(st), text, "," + Break(st) + ElementsText(st, j, i + 1, n));
    }
  }

  lemma KeyLays(st: Style, k: string, prev: Token, n: nat, open: nat, lead: string, x: string)
    requires Complete(k, st.ascii) && Starts(prev) && IsAt(st, n, open) && lead == Break(st) + Lead(st, n) && x == Quoted(st, k)
    ensures Lays(st, prev, open, KeyYield(k), lead + x + ("" + ":"), NameSeparator, open)
  {
    var key := ValueString(k);
    AheadIsLead(st, prev, n, open, key);
    OneLays(st, prev, open, key, lead, x, open);
    OneLays(st, key, open, NameSeparator, "", ":", open);
    LaysThen(st, prev, open, [key], lead + x, key, open, [NameSeparator], "" + ":", NameSeparator, open);
    assert [key] + [NameSeparator] == KeyYield(k);
  }

  /** One member: its key, the colon and its value. */
  lemma MemberLays(st: Style, j: Json, k: string, prev: Token, n: nat, open: nat)
    requires j.Obj? && k in j.m && Escapable(j, st.ascii) && Starts(prev) && IsAt(st, n, open)
    requires Shows(st, j.m[k], n, open)
    ensures Lays(st, prev, open, KeyYield(k) + TokensOf(j.m[k]), Break(st) + MemberText(st, j, k, n), Final(j.m[k]), open)
  {
    var lead, x, space, text := Break(st) + Lead(st, n), Quoted(st, k), if st.pretty then " " else "", Text(st, j.m[k], n);
    KeyLays(st, k, prev, n, open, lead, x);
    assert Ahead(st, NameSeparator, open) == space;
    LaysThen(st, prev, open, KeyYield(k), lead + x + ("" + ":"), NameSeparator, open,
      TokensOf(j.m[k]), space + text, Final(j.m[k]), open);
    MemberJoined(Break(st), Lead(st, n), x, space, text);
  }

  lemma MemberJoined(b: string, l: string, k: string, space: string, x: string)
    ensures b + l + k + ("" + ":") + (space + x) == b + (l + k + ":" + space + x)
  {
  }

  lemma {:induction false} MembersLay(st: Style, j: Json, keys: seq<string>, prev: Token, n: nat, open: nat) returns (last: Token)
    requires j.Obj? && keys != [] && (forall k :: k in keys ==> k in j.m)
    requires Escapable(j, st.ascii) && Starts(prev) && IsAt(st, n, open)
    requires forall k :: k in j.m ==> Shows(st, j.m[k], n, open)
    ensures Ends(last) && Lays(st, prev, open, MemberTokens(j, keys), Break(st) + MembersText(st, j, keys, n), last, open)
    decreases |keys|
  {
    var xs, text := KeyYield(keys[0]) + TokensOf(j.m[keys[0]]), MemberText(st, j, keys[0], n);
    MemberLays(st, j, keys[0], prev, n, open);
    NextMemberTokens(j, keys);
    last := Final(j.m[keys[0]]);
    if |keys| == 1 {
      Unpadded(xs);
      Unpadded(text);
    } else {
      var mid := last;
      last := MembersLay(st, j, keys[1..], ValueSeparator, n, open);
      CommaLays(st, prev, open, xs, Break(st) + text, mid, MemberTokens(j, keys[1..]), MembersText(st, j, keys[1..], n), last);
      Associates(Break(st), text, "," + Break(st) + MembersText(st, j, keys[1..], n));
    }
  }

  lemma ArrayShows(st: Style, j: Json, n: nat, open: nat)
    requires j.Arr? && j.a != [] && Escapable(j, st.ascii) && IsAt(st, n, open)
    requires forall k :: 0 <= k < |j.a| ==> Shows(st, j.a[k], Deeper(st, n), open + 1)
    ensures Shows(st, j, n, open)
  {
    DeeperIsAt(st, n, open);
    ArrayTokens(j);
    var x := ElementsText(st, j, 0, Deeper(st, n));
    var last := ElementsLay(st, j, 0, BeginArray, Deeper(st, n), open + 1);
    forall prev ensures Lays(st, prev, open, TokensOf(j), Ahead(st, prev, open) + Text(st, j, n), EndArray, open) {
      BracketsLay(st, prev, open, n, BeginArray, "[", ElementTokens(j, 0), x, last, EndArray, "]");
    }
  }

  lemma ObjectShows(st: Style, j: Json, n: nat, open: nat)
    requires j.Obj? && j.m != map[] && Escapable(j, st.ascii) && IsAt(st, n, open)
    requires forall k :: k in j.m ==> Shows(st, j.m[k], Deeper(st, n), open + 1)
    ensures Shows(st, j, n, open)
  {
    DeeperIsAt(st, n, open);
    ObjectTokens(j);
    var keys := Sorted(j.m.Keys);
    var x := MembersText(st, j, keys, Deeper(st, n));
    var last := MembersLay(st, j, keys, BeginObject, Deeper(st, n), open + 1);
    forall prev ensures Lays(st, prev, open, TokensOf(j), Ahead(st, prev, open) + Text(st, j, n), EndObject, open) {
      BracketsLay(st, prev, open, n, BeginObject, "{", MemberTokens(j, keys), x, last, EndObject, "}");
    }
  }

  lemma {:induction false} ValueShows(st: Style, j: Json, n: nat, open: nat)
    requires Escapable(j, st.ascii) && IsAt(st, n, open)
    ensures Shows(st, j, n, open)
  {
    DeeperIsAt(st, n, open);
    EmptyTokens();
    EmptyText(st, n);
    match j
    case Arr(a) =>
      if a == [] {
        EmptyShows(st, j, n, open, BeginArray, "[", EndArray, "]");
      } else {
        forall k | 0 <= k < |a| ensures Shows(st, a[k], Deeper(st, n), open + 1) {
          ValueShows(st, a[k], Deeper(st, n), open + 1);
        }
        ArrayShows(st, j, n, open);
      }
    case Obj(m) =>
      if m == map[] {
        EmptyShows(st, j, n, open, BeginObject, "{", EndObject, "}");
      } else {
        forall k | k in m ensures Shows(st, m[k], Deeper(st, n), open + 1) {
          ValueShows(st, m[k], Deeper(st, n), open + 1);
        }
        ObjectShows(st, j, n, open);
      }
    case _ => ScalarShows(st, j, n, open);
  }

  /** The text of a value is the layout of its tokens. */
  lemma TextIsLaidOut(st: Style, j: Json)
    requires Escapable(j, st.ascii)
    ensures Text(st, j, 0) == LaidOut(st, Uninitialized, 0, TokensOf(j))
  {
    ValueShows(st, j, 0, 0);
    assert Lays(st, Uninitialized, 0, TokensOf(j), Ahead(st, Uninitialized, 0) + Text(st, j, 0), Final(j), 0);
    Unpadded(TokensOf(j));
    Unpadded(Text(st, j, 0));
    assert LaidOut(st, Final(j), 0, []) == "";
  }

  /** dump, as the public interface calls it: a negative indent prints compactly. */
  method DumpValue(j: Json, indent: int, indentChar: char, ascii: bool, floatText: UInt64 -> string)
    returns (st: Style, out: string)
    requires Escapable(j, ascii) && indent < 0x8000_0000
    requires !(j.Obj? && j.m != map[] && indent > 1024)
    ensures st == (if indent >= 0 then Style(true, ascii, indent, indentChar, floatText)
                   else Style(false, ascii, 0, indentChar, floatText))
    ensures out == Text(st, j, 0)
    ensures out == LaidOut(st, Uninitialized, 0, TokensOf(j))
  {
    st := if indent >= 0 then Style(true, ascii, indent, indentChar, floatText)
          else Style(false, ascii, 0, indentChar, floatText);
    var s := new Serializer(st);
    if indent >= 0 {
      IndentationFits(st, j);
    }
    s.Dump(j, 0);
    out := s.out;
    TextIsLaidOut(st, j);
  }
}
