/**
 The values of JSON over tokens (sections 3 to 5 of RFC 7159), and that they are what is parsed.
 */
module ValueGrammar {
  import opened Json
  import opened JsonParse
  import opened Sequences

  // -------------------------------------------------------------------------------------
  // The grammar
  // -------------------------------------------------------------------------------------

  datatype Tree = Scalar(token: Token) | Array(elements: seq<Tree>) | Object(members: seq<Member>)

  datatype Member = Member(key: string, value: Tree)

  predicate IsScalar(t: Token) {
    t in {LiteralNull, LiteralTrue, LiteralFalse} || t.ValueString? || t.ValueUnsigned? || t.ValueInteger? || t.ValueFloat?
  }

  predicate IsTree(t: Tree) {
    match t
    case Scalar(token) => IsScalar(token)
    case Array(es) => forall i :: 0 <= i < |es| ==> IsTree(es[i])
    case Object(ms) => forall i :: 0 <= i < |ms| ==> IsTree(ms[i].value)
  }

  predicate AreTrees(es: seq<Tree>) {
    forall i :: 0 <= i < |es| ==> IsTree(es[i])
  }

  predicate AreMembers(ms: seq<Member>) {
    forall i :: 0 <= i < |ms| ==> IsTree(ms[i].value)
  }

  /** The tokens: brackets around elements or members, which commas separate. */
  function Yield(t: Tree): seq<Token> {
    match t
    case Scalar(token) => [token]
    case Array(es) => [BeginArray] + ElementYield(es) + [EndArray]
    case Object(ms) => [BeginObject] + MemberYield(ms) + [EndObject]
  }

  function ElementYield(es: seq<Tree>): seq<Token> {
    if es == [] then []
    else Yield(es[0]) + if |es| == 1 then [] else [ValueSeparator] + ElementYield(es[1..])
  }

  function KeyYield(k: string): seq<Token> {
    [ValueString(k), NameSeparator]
  }

  function MemberYield(ms: seq<Member>): seq<Token> {
    if ms == [] then []
    else KeyYield(ms[0].key) + (Yield(ms[0].value) + if |ms| == 1 then [] else [ValueSeparator] + MemberYield(ms[1..]))
  }

  function Meaning(t: Tree): Json
    requires IsTree(t)
  {
    match t
    case Scalar(LiteralNull) => Null
    case Scalar(LiteralTrue) => Bool(true)
    case Scalar(LiteralFalse) => Bool(false)
    case Scalar(ValueString(s)) => Str(s)
    case Scalar(ValueUnsigned(u)) => UInt(u)
    case Scalar(ValueInteger(i)) => Int(i)
    case Scalar(ValueFloat(bits)) => Float(bits)
    case Array(es) => Arr(Meanings(es))
    case Object(ms) => Obj(SetAll(map[], ms))
  }

  function Meanings(es: seq<Tree>): seq<Json>
    requires AreTrees(es)
  {
    if es == [] then [] else [Meaning(es[0])] + Meanings(es[1..])
  }

  /** A later member replaces an earlier one of the same name. */
  function SetAll(m: map<string, Json>, ms: seq<Member>): map<string, Json>
    requires AreMembers(ms)
    decreases ms
  {
    if ms == [] then m else SetAll(m[ms[0].key := Meaning(ms[0].value)], ms[1..])
  }

  /** No float is infinite or NaN. */
  predicate InRange(t: Token) {
    t.ValueFloat? ==> t.bits % 0x8000_0000_0000_0000 < 0x7ff0_0000_0000_0000
  }

  predicate AllInRange(ts: seq<Token>) {
    forall t :: t in ts ==> InRange(t)
  }

  // -------------------------------------------------------------------------------------
  // Streams that begin with given tokens
  // -------------------------------------------------------------------------------------

  function Before(xs: seq<Token>, ts: Stream): Stream {
    assert (xs + ts)[|xs + ts| - 1] == ts[|ts| - 1];
    xs + ts
  }

  lemma BeforeJoined(xs: seq<Token>, ys: seq<Token>, ts: Stream)
    ensures Before(xs + ys, ts) == Before(xs, Before(ys, ts))
  {
    Associates(xs, ys, ts);
  }

  lemma BeforeNext(t: Token, xs: seq<Token>, ts: Stream)
    ensures Before([t] + xs, ts)[0] == t && Next(Before([t] + xs, ts)) == Before(xs, ts)
  {
    Associates([t], xs, ts);
    assert Before([t] + xs, ts)[1..] == xs + ts;
  }

  lemma OneBefore(t: Token, ts: Stream)
    ensures Before([t], ts)[0] == t && Next(Before([t], ts)) == ts
  {
    BeforeNext(t, [], ts);
    Unpadded([t]);
    Unpadded(ts);
  }

  /** The contents of brackets, and the closing one. */
  lemma BracketsOpen(open: Token, xs: seq<Token>, close: Token, ts: Stream)
    ensures Before([open] + xs + [close], ts)[0] == open
    ensures Next(Before([open] + xs + [close], ts)) == Before(xs, Before([close], ts))
    ensures Before([close], ts)[0] == close && Next(Before([close], ts)) == ts
  {
    BeforeJoined([open] + xs, [close], ts);
    BeforeNext(open, xs, Before([close], ts));
    OneBefore(close, ts);
  }

  // -------------------------------------------------------------------------------------
  // Every tree is accepted and parsed
  // -------------------------------------------------------------------------------------

  /** The value v, and the stream stands at the token before ts. */
  predicate ParsesTo(r: Parsed, v: Json, ts: Stream) {
    r.Got? && r.value == v && Next(r.at) == ts
  }

  predicate AcceptsTo(a: Accepted, ts: Stream) {
    a.Yes? && Next(a.at) == ts
  }

  /** Accepted, and parsed when no float is out of range. */
  predicate Reads(a: Accepted, p: Parsed, xs: seq<Token>, v: Json, ts: Stream) {
    AcceptsTo(a, ts) && (AllInRange(xs) ==> ParsesTo(p, v, ts))
  }

  lemma FiniteInRange(t: Token)
    ensures Finite(t) <==> InRange(t)
  {
  }

  lemma YieldBegins(t: Tree)
    ensures Yield(t) != [] && (IsTree(t) ==> Yield(t)[0] !in {EndArray, EndObject, EndOfInput, ParseError})
  {
    match t
    case Scalar(_) =>
    case Array(es) => assert Yield(t)[0] == BeginArray;
    case Object(ms) => assert Yield(t)[0] == BeginObject;
  }

  lemma ScalarReads(token: Token, ts: Stream)
    requires IsScalar(token)
    ensures var x := Before([token], ts); Reads(AcceptValue(x), ParseValue(x), [token], Meaning(Scalar(token)), ts)
  {
    OneBefore(token, ts);
    FiniteInRange(token);
    assert token in [token];
  }

  lemma PartsInRange(xs: seq<Token>, ys: seq<Token>)
    ensures AllInRange(xs + ys) ==> AllInRange(xs) && AllInRange(ys)
  {
  }

  /** A part and what follows it behind a comma. */
  lemma CommaRead(xs: seq<Token>, ys: seq<Token>, ts: Stream)
    ensures var n := Before([ValueSeparator] + ys, ts);
      n[0] == ValueSeparator && Next(n) == Before(ys, ts) && Before(xs + ([ValueSeparator] + ys), ts) == Before(xs, n)
    ensures AllInRange(xs + ([ValueSeparator] + ys)) ==> AllInRange(xs) && AllInRange(ys)
  {
    BeforeJoined(xs, [ValueSeparator] + ys, ts);
    BeforeNext(ValueSeparator, ys, ts);
    PartsInRange(xs, [ValueSeparator] + ys);
    PartsInRange([ValueSeparator], ys);
  }

  lemma LastElement(xs: seq<Token>, v: Json, a: seq<Json>, ts: Stream)
    requires var x := Before(xs, ts); Reads(AcceptValue(x), ParseValue(x), xs, v, ts)
    requires ts[0] == EndArray
    ensures var x := Before(xs, ts); Reads(AcceptElements(x), ParseElements(x, a), xs, Arr(a + [v]), Next(ts))
  {
  }

  lemma OneElement(xs: seq<Token>, v: Json, ys: seq<Token>, w: Json, a: seq<Json>, ts: Stream, end: Stream)
    requires var n := Before([ValueSeparator] + ys, ts); var x := Before(xs, n);
      Reads(AcceptValue(x), ParseValue(x), xs, v, n)
    requires var y := Before(ys, ts); Reads(AcceptElements(y), ParseElements(y, a + [v]), ys, w, end)
    ensures var zs := xs + ([ValueSeparator] + ys); var z := Before(zs, ts);
      Reads(AcceptElements(z), ParseElements(z, a), zs, w, end)
  {
    CommaRead(xs, ys, ts);
  }

  lemma {:induction false} ElementsRead(es: seq<Tree>, a: seq<Json>, ts: Stream)
    requires AreTrees(es) && es != [] && ts[0] == EndArray
    ensures var x := Before(ElementYield(es), ts);
      Reads(AcceptElements(x), ParseElements(x, a), ElementYield(es), Arr(a + Meanings(es)), Next(ts))
    decreases es
  {
    var xs, v := Yield(es[0]), Meaning(es[0]);
    if |es| == 1 {
      TreeReads(es[0], ts);
      LastElement(xs, v, a, ts);
      Unpadded(xs);
      Unpadded([v]);
      assert Meanings(es[1..]) == [];
    } else {
      var ys := ElementYield(es[1..]);
      TreeReads(es[0], Before([ValueSeparator] + ys, ts));
      ElementsRead(es[1..], a + [v], ts);
      Associates(a, [v], Meanings(es[1..]));
      OneElement(xs, v, ys, Arr(a + Meanings(es)), a, ts, Next(ts));
    }
  }

  lemma KeyRead(k: string, xs: seq<Token>, ts: Stream, m: map<string, Json>)
    ensures var x := Before(KeyYield(k) + xs, ts);
      ParseMembers(x, m) == AfterKey(Before(xs, ts), m, k) && AcceptMembers(x) == AcceptAfterKey(Before(xs, ts))
    ensures AllInRange(KeyYield(k) + xs) ==> AllInRange(xs)
  {
    var s, c := [ValueString(k)], [NameSeparator];
    assert KeyYield(k) == s + c;
    Associates(s, c, xs);
    BeforeNext(ValueString(k), c + xs, ts);
    BeforeNext(NameSeparator, xs, ts);
    PartsInRange(KeyYield(k), xs);
  }

  lemma LastMember(k: string, xs: seq<Token>, v: Json, m: map<string, Json>, ts: Stream)
    requires var x := Before(xs, ts); Reads(AcceptValue(x), ParseValue(x), xs, v, ts)
    requires ts[0] == EndObject
    ensures var zs := KeyYield(k) + xs; var z := Before(zs, ts);
      Reads(AcceptMembers(z), ParseMembers(z, m), zs, Obj(m[k := v]), Next(ts))
  {
    KeyRead(k, xs, ts, m);
  }

  lemma OneMember(k: string, xs: seq<Token>, v: Json, ys: seq<Token>, w: Json, m: map<string, Json>, ts: Stream, end: Stream)
    requires var n := Before([ValueSeparator] + ys, ts); var x := Before(xs, n);
      Reads(AcceptValue(x), ParseValue(x), xs, v, n)
    requires var y := Before(ys, ts); Reads(AcceptMembers(y), ParseMembers(y, m[k := v]), ys, w, end)
    ensures var zs := KeyYield(k) + (xs + ([ValueSeparator] + ys)); var z := Before(zs, ts);
      Reads(AcceptMembers(z), ParseMembers(z, m), zs, w, end)
  {
    CommaRead(xs, ys, ts);
    KeyRead(k, xs + ([ValueSeparator] + ys), ts, m);
  }

  lemma FirstSet(m: map<string, Json>, ms: seq<Member>)
    requires AreMembers(ms) && ms != []
    ensures AreMembers(ms[1..])
    ensures var n := m[ms[0].key := Meaning(ms[0].value)];
      SetAll(m, ms) == SetAll(n, ms[1..]) && (|ms| == 1 ==> SetAll(m, ms) == n)
  {
  }

  lemma {:induction false} MembersRead(ms: seq<Member>, m: map<string, Json>, ts: Stream)
    requires AreMembers(ms) && ms != [] && ts[0] == EndObject
    ensures var x := Before(MemberYield(ms), ts);
      Reads(AcceptMembers(x), ParseMembers(x, m), MemberYield(ms), Obj(SetAll(m, ms)), Next(ts))
    decreases ms
  {
    var k, xs, v := ms[0].key, Yield(ms[0].value), Meaning(ms[0].value);
    var w := Obj(SetAll(m, ms));
    FirstSet(m, ms);
    if |ms| == 1 {
      TreeReads(ms[0].value, ts);
      LastMember(k, xs, v, m, ts);
      Unpadded(xs);
      assert MemberYield(ms) == KeyYield(k) + xs;
    } else {
      var ys := MemberYield(ms[1..]);
      TreeReads(ms[0].value, Before([ValueSeparator] + ys, ts));
      MembersRead(ms[1..], m[k := v], ts);
      OneMember(k, xs, v, ys, w, m, ts, Next(ts));
      assert MemberYield(ms) == KeyYield(k) + (xs + ([ValueSeparator] + ys));
    }
  }

  lemma EmptyReads(ts: Stream)
    ensures var x := Before([BeginArray] + [] + [EndArray], ts);
      Reads(AcceptValue(x), ParseValue(x), [BeginArray] + [] + [EndArray], Arr([]), ts)
    ensures var x := Before([BeginObject] + [] + [EndObject], ts);
      Reads(AcceptValue(x), ParseValue(x), [BeginObject] + [] + [EndObject], Obj(map[]), ts)
  {
    BracketsOpen(BeginArray, [], EndArray, ts);
    BracketsOpen(BeginObject, [], EndObject, ts);
    Unpadded(Before([EndArray], ts));
    Unpadded(Before([EndObject], ts));
  }

  lemma ArrayReads(xs: seq<Token>, v: Json, ts: Stream)
    requires var x := Before(xs, Before([EndArray], ts));
      x[0] != EndArray && Reads(AcceptElements(x), ParseElements(x, []), xs, v, ts)
    ensures var zs := [BeginArray] + xs + [EndArray]; var z := Before(zs, ts);
      Reads(AcceptValue(z), ParseValue(z), zs, v, ts)
  {
    BracketsOpen(BeginArray, xs, EndArray, ts);
    PartsInRange([BeginArray] + xs, [EndArray]);
    PartsInRange([BeginArray], xs);
  }

  lemma ObjectReads(xs: seq<Token>, v: Json, ts: Stream)
    requires var x := Before(xs, Before([EndObject], ts));
      x[0] != EndObject && Reads(AcceptMembers(x), ParseMembers(x, map[]), xs, v, ts)
    ensures var zs := [BeginObject] + xs + [EndObject]; var z := Before(zs, ts);
      Reads(AcceptValue(z), ParseValue(z), zs, v, ts)
  {
    BracketsOpen(BeginObject, xs, EndObject, ts);
    PartsInRange([BeginObject] + xs, [EndObject]);
    PartsInRange([BeginObject], xs);
  }

  lemma FirstElement(es: seq<Tree>, ts: Stream)
    requires AreTrees(es) && es != []
    ensures Before(ElementYield(es), ts)[0] != EndArray
  {
    YieldBegins(es[0]);
    assert ElementYield(es)[0] == Yield(es[0])[0];
  }

  lemma FirstMember(ms: seq<Member>, ts: Stream)
    requires ms != []
    ensures Before(MemberYield(ms), ts)[0] != EndObject
  {
    assert MemberYield(ms)[0] == KeyYield(ms[0].key)[0];
  }

  lemma {:induction false} TreeReads(t: Tree, ts: Stream)
    requires IsTree(t)
    ensures var x := Before(Yield(t), ts); Reads(AcceptValue(x), ParseValue(x), Yield(t), Meaning(t), ts)
    decreases t
  {
    match t
    case Scalar(token) => ScalarReads(token, ts);
    case Array(es) =>
      if es == [] {
        EmptyReads(ts);
      } else {
        var end := Before([EndArray], ts);
        OneBefore(EndArray, ts);
        FirstElement(es, end);
        ElementsRead(es, [], end);
        Unpadded(Meanings(es));
        ArrayReads(ElementYield(es), Meaning(t), ts);
      }
    case Object(ms) =>
      if ms == [] {
        EmptyReads(ts);
      } else {
        var end := Before([EndObject], ts);
        OneBefore(EndObject, ts);
        FirstMember(ms, end);
        MembersRead(ms, map[], end);
        ObjectReads(MemberYield(ms), Meaning(t), ts);
      }
  }

  // -------------------------------------------------------------------------------------
  // Nothing else is accepted
  // -------------------------------------------------------------------------------------

  lemma NextOf(t: Token, ts: Stream)
    requires ts[0] == t && t != EndOfInput
    ensures |ts| > 1 && ts == Before([t], Next(ts))
  {
  }

  /** A part and what was found behind a comma. */
  lemma CommaFound(ts: Stream, xs: seq<Token>, n: Stream, ys: seq<Token>, at: Stream)
    requires ts == Before(xs, n) && n[0] == ValueSeparator && Next(n) == Before(ys, at)
    ensures ts == Before(xs + ([ValueSeparator] + ys), at)
  {
    NextOf(ValueSeparator, n);
    BeforeJoined([ValueSeparator], ys, at);
    BeforeJoined(xs, [ValueSeparator] + ys, at);
  }

  lemma ElementsAccepted(ts: Stream)
    requires AcceptElements(ts).Yes?
    ensures AcceptValue(ts).Yes?
    ensures var n := Next(AcceptValue(ts).at);
      if n[0] == ValueSeparator then AcceptElements(ts) == AcceptElements(Next(n)) && |Next(n)| < |ts|
      else n[0] == EndArray && AcceptElements(ts).at == n
  {
  }

  lemma {:induction false} ElementsFound(ts: Stream) returns (es: seq<Tree>)
    requires AcceptElements(ts).Yes?
    ensures es != [] && AreTrees(es) && AcceptElements(ts).at[0] == EndArray
    ensures ts == Before(ElementYield(es), AcceptElements(ts).at)
    decreases |ts|, 1
  {
    ElementsAccepted(ts);
    var t := TreeFound(ts);
    var n := Next(AcceptValue(ts).at);
    if n[0] == ValueSeparator {
      var more := ElementsFound(Next(n));
      es := [t] + more;
      assert es[1..] == more;
      CommaFound(ts, Yield(t), n, ElementYield(more), AcceptElements(ts).at);
    } else {
      es := [t];
      Unpadded(Yield(t));
    }
  }

  /** The stream behind the key, and the one behind its value. */
  lemma MembersAccepted(ts: Stream) returns (u: Stream, n: Stream)
    requires AcceptMembers(ts).Yes?
    ensures ts[0].ValueString? && ts == Before(KeyYield(ts[0].s), u) && |u| < |ts|
    ensures AcceptValue(u).Yes? && n == Next(AcceptValue(u).at)
    ensures if n[0] == ValueSeparator then AcceptMembers(ts) == AcceptMembers(Next(n)) && |Next(n)| < |ts|
      else n[0] == EndObject && AcceptMembers(ts).at == n
  {
    u := Next(Next(ts));
    n := Next(AcceptValue(u).at);
    NextOf(ts[0], ts);
    NextOf(NameSeparator, Next(ts));
  }

  lemma MemberFound(ts: Stream, key: string, u: Stream, t: Tree, n: Stream, more: seq<Member>, at: Stream)
    requires ts == Before(KeyYield(key), u) && u == Before(Yield(t), n)
    requires if more == [] then n == at else n[0] == ValueSeparator && Next(n) == Before(MemberYield(more), at)
    ensures ts == Before(MemberYield([Member(key, t)] + more), at)
  {
    var ms := [Member(key, t)] + more;
    assert ms[1..] == more;
    if more == [] {
      Unpadded(Yield(t));
      BeforeJoined(KeyYield(key), Yield(t), at);
    } else {
      var xs := Yield(t) + ([ValueSeparator] + MemberYield(more));
      CommaFound(u, Yield(t), n, MemberYield(more), at);
      BeforeJoined(KeyYield(key), xs, at);
      assert MemberYield(ms) == KeyYield(key) + xs;
    }
  }

  lemma {:induction false} MembersFound(ts: Stream) returns (ms: seq<Member>)
    requires AcceptMembers(ts).Yes?
    ensures ms != [] && AreMembers(ms) && AcceptMembers(ts).at[0] == EndObject
    ensures ts == Before(MemberYield(ms), AcceptMembers(ts).at)
    decreases |ts|, 1
  {
    var u, n := MembersAccepted(ts);
    var t := TreeFound(u);
    var more: seq<Member> := [];
    if n[0] == ValueSeparator {
      more := MembersFound(Next(n));
    }
    ms := [Member(ts[0].s, t)] + more;
    MemberFound(ts, ts[0].s, u, t, n, more, AcceptMembers(ts).at);
  }

  lemma BracketsFound(open: Token, xs: seq<Token>, close: Token, ts: Stream, at: Stream)
    requires ts[0] == open != EndOfInput && at[0] == close != EndOfInput && Next(ts) == Before(xs, at)
    ensures ts == Before([open] + xs + [close], Next(at))
  {
    NextOf(open, ts);
    NextOf(close, at);
    BeforeJoined(xs, [close], Next(at));
    BeforeJoined([open], xs + [close], Next(at));
    Associates([open], xs, [close]);
  }

  lemma EmptyFound(ts: Stream)
    requires (ts[0] == BeginArray && Next(ts)[0] == EndArray) || (ts[0] == BeginObject && Next(ts)[0] == EndObject)
    ensures AcceptValue(ts) == Yes(Next(ts)) && ts == Before([ts[0]] + [] + [Next(ts)[0]], Next(Next(ts)))
  {
    Unpadded(Next(ts));
    BracketsFound(ts[0], [], Next(ts)[0], ts, Next(ts));
  }

  lemma ContainerAccepted(ts: Stream)
    requires AcceptValue(ts).Yes?
    ensures ts[0] == BeginArray && Next(ts)[0] != EndArray ==> AcceptValue(ts) == AcceptElements(Next(ts)) && |Next(ts)| < |ts|
    ensures ts[0] == BeginObject && Next(ts)[0] != EndObject ==> AcceptValue(ts) == AcceptMembers(Next(ts)) && |Next(ts)| < |ts|
    ensures ts[0] !in {BeginArray, BeginObject} ==> IsScalar(ts[0]) && AcceptValue(ts) == Yes(ts)
  {
  }

  /** What is accepted is the yield of a tree. */
  lemma {:induction false} TreeFound(ts: Stream) returns (t: Tree)
    requires AcceptValue(ts).Yes?
    ensures IsTree(t) && AcceptValue(ts).at[0] != EndOfInput && ts == Before(Yield(t), Next(AcceptValue(ts).at))
    decreases |ts|, 0
  {
    ContainerAccepted(ts);
    var at := AcceptValue(ts).at;
    if ts[0] == BeginArray {
      if Next(ts)[0] == EndArray {
        t := Array([]);
        EmptyFound(ts);
      } else {
        var es := ElementsFound(Next(ts));
        t := Array(es);
        BracketsFound(BeginArray, ElementYield(es), EndArray, ts, at);
      }
    } else if ts[0] == BeginObject {
      if Next(ts)[0] == EndObject {
        t := Object([]);
        EmptyFound(ts);
      } else {
        var ms := MembersFound(Next(ts));
        t := Object(ms);
        BracketsFound(BeginObject, MemberYield(ms), EndObject, ts, at);
      }
    } else {
      t := Scalar(ts[0]);
      NextOf(ts[0], ts);
    }
  }

  // -------------------------------------------------------------------------------------
  // The languages
  // -------------------------------------------------------------------------------------

  /** The tokens are those of a tree and of what may follow it. */
  predicate Derives(t: Tree, ts: Stream, rest: Stream, strict: bool) {
    IsTree(t) && ts == Before(Yield(t), rest) && (strict ==> rest[0] == EndOfInput)
  }

  lemma AcceptsTrees(ts: Stream, strict: bool)
    ensures Accept(ts, strict) <==> exists t, rest :: Derives(t, ts, rest, strict)
  {
    if Accept(ts, strict) {
      var t := TreeFound(ts);
      assert Derives(t, ts, Next(AcceptValue(ts).at), strict);
    }
    if t, rest :| Derives(t, ts, rest, strict) {
      TreeReads(t, rest);
    }
  }

  lemma YieldInRange(xs: seq<Token>, ts: Stream, at: Stream)
    requires IsSuffix(at, ts) && at[0] != EndOfInput && FiniteUpTo(ts, at) && ts == Before(xs, Next(at))
    ensures AllInRange(xs)
  {
    forall t | t in xs ensures InRange(t) {
      var i :| 0 <= i < |xs| && xs[i] == t;
      assert ts[i] == t;
      FiniteInRange(t);
    }
  }

  lemma ParsedIsTree(ts: Stream, strict: bool) returns (t: Tree, rest: Stream)
    requires Parse(ts, strict).Got?
    ensures Derives(t, ts, rest, strict) && AllInRange(Yield(t)) && Parse(ts, strict).value == Meaning(t)
  {
    AcceptIsParse(ts, strict);
    ValuesAgree(ts);
    t := TreeFound(ts);
    var at := ParseValue(ts).at;
    rest := Next(at);
    YieldInRange(Yield(t), ts, at);
    TreeReads(t, rest);
  }

  lemma TreeIsParsed(t: Tree, ts: Stream, rest: Stream, strict: bool)
    requires Derives(t, ts, rest, strict) && AllInRange(Yield(t))
    ensures Parse(ts, strict).Got? && Parse(ts, strict).value == Meaning(t)
  {
    TreeReads(t, rest);
  }

  /** A value is parsed exactly from the trees that mean it and have no float out of range. */
  lemma ParsesTrees(ts: Stream, strict: bool, v: Json)
    ensures (Parse(ts, strict).Got? && Parse(ts, strict).value == v)
      <==> exists t, rest :: Derives(t, ts, rest, strict) && AllInRange(Yield(t)) && v == Meaning(t)
  {
    if Parse(ts, strict).Got? {
      var t, rest := ParsedIsTree(ts, strict);
    }
    if t, rest :| Derives(t, ts, rest, strict) && AllInRange(Yield(t)) && v == Meaning(t) {
      TreeIsParsed(t, ts, rest, strict);
    }
  }
}
