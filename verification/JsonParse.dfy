/**
 The grammar over tokens: the values and errors that a parser and an acceptor give for a stream of tokens, and how
 the two are related.
 */
module JsonParse {
  import opened Json

  datatype Token =
    | Uninitialized
    | LiteralTrue | LiteralFalse | LiteralNull
    | ValueString(s: string) | ValueUnsigned(u: UInt64) | ValueInteger(i: Int64) | ValueFloat(bits: UInt64)
    | BeginArray | BeginObject | EndArray | EndObject
    | NameSeparator | ValueSeparator
    | ParseError | EndOfInput

  /** The first token is the last one read; at its end the input goes on returning the end of input. */
  type Stream = ts: seq<Token> | ts != [] && ts[|ts| - 1] == EndOfInput witness [EndOfInput]

  function Next(ts: Stream): (n: Stream)
    ensures |n| <= |ts| && (ts[0] != EndOfInput ==> |n| < |ts|)
  {
    if |ts| == 1 then ts else ts[1..]
  }

  /** A float is finite unless its exponent is the largest one. */
  predicate Finite(t: Token) {
    t.ValueFloat? ==> (t.bits / 0x10_0000_0000_0000) % 2048 != 2047
  }

  // -------------------------------------------------------------------------------------
  // Parsing
  // -------------------------------------------------------------------------------------

  datatype SyntaxError = Unexpected | NumberOverflow

  /** A value, and the stream at the value's last token. */
  datatype Parsed = Got(value: Json, at: Stream) | Failed(error: SyntaxError)

  function ParseValue(ts: Stream): (r: Parsed)
    ensures r.Got? ==> |r.at| <= |ts|
    decreases |ts|, 0
  {
    match ts[0]
    case BeginObject => if Next(ts)[0] == EndObject then Got(Obj(map[]), Next(ts)) else ParseMembers(Next(ts), map[])
    case BeginArray => if Next(ts)[0] == EndArray then Got(Arr([]), Next(ts)) else ParseElements(Next(ts), [])
    case LiteralNull => Got(Null, ts)
    case LiteralTrue => Got(Bool(true), ts)
    case LiteralFalse => Got(Bool(false), ts)
    case ValueString(s) => Got(Str(s), ts)
    case ValueUnsigned(u) => Got(UInt(u), ts)
    case ValueInteger(i) => Got(Int(i), ts)
    case ValueFloat(bits) => if Finite(ts[0]) then Got(Float(bits), ts) else Failed(NumberOverflow)
    case _ => Failed(Unexpected)
  }

  function ParseElements(ts: Stream, a: seq<Json>): (r: Parsed)
    ensures r.Got? ==> |r.at| <= |ts|
    decreases |ts|, 1
  {
    var v := ParseValue(ts);
    if v.Failed? then v
    else
      var n := Next(v.at);
      if n[0] == ValueSeparator then ParseElements(Next(n), a + [v.value])
      else if n[0] == EndArray then Got(Arr(a + [v.value]), n)
      else Failed(Unexpected)
  }

  function ParseMembers(ts: Stream, m: map<string, Json>): (r: Parsed)
    ensures r.Got? ==> |r.at| <= |ts|
    decreases |ts|, 2
  {
    if !ts[0].ValueString? || Next(ts)[0] != NameSeparator then Failed(Unexpected)
    else AfterKey(Next(Next(ts)), m, ts[0].s)
  }

  function AfterKey(ts: Stream, m: map<string, Json>, key: string): (r: Parsed)
    ensures r.Got? ==> |r.at| <= |ts|
    decreases |ts|, 1
  {
    var v := ParseValue(ts);
    if v.Failed? then v
    else
      var n := Next(v.at);
      if n[0] == ValueSeparator then ParseMembers(Next(n), m[key := v.value])
      else if n[0] == EndObject then Got(Obj(m[key := v.value]), n)
      else Failed(Unexpected)
  }

  /** parse: strict demands that the input ends behind the value. */
  function Parse(tokens: Stream, strict: bool): Parsed {
    var v := ParseValue(tokens);
    if v.Got? && strict && Next(v.at)[0] != EndOfInput then Failed(Unexpected) else v
  }

  // -------------------------------------------------------------------------------------
  // Accepting
  // -------------------------------------------------------------------------------------

  datatype Accepted = Yes(at: Stream) | No

  function AcceptValue(ts: Stream): (r: Accepted)
    ensures r.Yes? ==> |r.at| <= |ts|
    decreases |ts|, 0
  {
    if ts[0] == BeginObject then
      if Next(ts)[0] == EndObject then Yes(Next(ts)) else AcceptMembers(Next(ts))
    else if ts[0] == BeginArray then
      if Next(ts)[0] == EndArray then Yes(Next(ts)) else AcceptElements(Next(ts))
    else if ts[0] in {LiteralNull, LiteralTrue, LiteralFalse}
         || ts[0].ValueString? || ts[0].ValueUnsigned? || ts[0].ValueInteger? || ts[0].ValueFloat? then Yes(ts)
    else No
  }

  function AcceptElements(ts: Stream): (r: Accepted)
    ensures r.Yes? ==> |r.at| <= |ts|
    decreases |ts|, 1
  {
    var v := AcceptValue(ts);
    if v.No? then No
    else
      var n := Next(v.at);
      if n[0] == ValueSeparator then AcceptElements(Next(n))
      else if n[0] == EndArray then Yes(n)
      else No
  }

  function AcceptMembers(ts: Stream): (r: Accepted)
    ensures r.Yes? ==> |r.at| <= |ts|
    decreases |ts|, 2
  {
    if !ts[0].ValueString? then No
    else if Next(ts)[0] != NameSeparator then No
    else AcceptAfterKey(Next(Next(ts)))
  }

  function AcceptAfterKey(ts: Stream): (r: Accepted)
    ensures r.Yes? ==> |r.at| <= |ts|
    decreases |ts|, 1
  {
    var v := AcceptValue(ts);
    if v.No? then No
    else
      var n := Next(v.at);
      if n[0] == ValueSeparator then AcceptMembers(Next(n))
      else if n[0] == EndObject then Yes(n)
      else No
  }

  function Accept(tokens: Stream, strict: bool): bool {
    var v := AcceptValue(tokens);
    v.Yes? && (!strict || Next(v.at)[0] == EndOfInput)
  }

  // -------------------------------------------------------------------------------------
  // The two recursions agree
  // -------------------------------------------------------------------------------------

  predicate IsSuffix(at: Stream, ts: Stream) {
    |at| <= |ts| && at == ts[|ts| - |at|..]
  }

  /** All floats of ts up to and including the first token of at are finite. */
  predicate FiniteUpTo(ts: Stream, at: Stream) {
    forall i :: 0 <= i <= |ts| - |at| && i < |ts| ==> Finite(ts[i])
  }

  /** What parsing says, given what accepting says: the same end, or an overflowing float before it. */
  predicate Agree(ts: Stream, p: Parsed, a: Accepted) {
    match a
    case No => p.Failed?
    case Yes(at) => IsSuffix(at, ts) && if FiniteUpTo(ts, at) then p.Got? && p.at == at else p == Failed(NumberOverflow)
  }

  lemma SuffixNext(at: Stream, ts: Stream)
    requires IsSuffix(at, ts)
    ensures IsSuffix(Next(at), ts)
  {
  }

  lemma SuffixTransitive(a: Stream, b: Stream, c: Stream)
    requires IsSuffix(a, b) && IsSuffix(b, c)
    ensures IsSuffix(a, c)
  {
  }

  /** Finiteness up to a token of a later part. */
  lemma FiniteParts(ts: Stream, mid: Stream, at: Stream)
    requires IsSuffix(mid, ts) && IsSuffix(at, mid)
    ensures FiniteUpTo(ts, at) <==> FiniteUpTo(ts, mid) && FiniteUpTo(mid, at)
  {
    forall i | 0 <= i < |mid| ensures mid[i] == ts[|ts| - |mid| + i] {
    }
    if FiniteUpTo(ts, at) {
      forall i | 0 <= i <= |mid| - |at| && i < |mid| ensures Finite(mid[i]) {
        assert mid[i] == ts[|ts| - |mid| + i];
      }
    }
    if FiniteUpTo(ts, mid) && FiniteUpTo(mid, at) {
      forall i | 0 <= i <= |ts| - |at| && i < |ts| ensures Finite(ts[i]) {
        if i > |ts| - |mid| {
          assert ts[i] == mid[i - (|ts| - |mid|)];
        }
      }
    }
  }

  lemma FiniteNext(ts: Stream, at: Stream)
    requires IsSuffix(at, ts)
    ensures FiniteUpTo(ts, Next(at)) <==> FiniteUpTo(ts, at) && Finite(Next(at)[0])
  {
    if |at| > 1 {
      assert Next(at)[0] == ts[|ts| - |at| + 1];
    } else {
      assert at[0] == ts[|ts| - 1];
    }
  }

  /** From the end of one value over a separator to the end of all. */
  lemma FiniteAcross(ts: Stream, at: Stream, end: Stream)
    requires IsSuffix(at, ts) && Finite(Next(at)[0]) && IsSuffix(end, Next(Next(at)))
    ensures IsSuffix(end, ts)
    ensures FiniteUpTo(ts, end) <==> FiniteUpTo(ts, at) && FiniteUpTo(Next(Next(at)), end)
  {
    var n := Next(at);
    var nn := Next(n);
    SuffixNext(at, ts);
    SuffixNext(n, ts);
    SuffixTransitive(end, nn, ts);
    FiniteParts(ts, nn, end);
    FiniteNext(ts, at);
    FiniteNext(ts, n);
    assert FiniteUpTo(nn, end) ==> Finite(nn[0]);
  }

  /** To the closing bracket behind a value. */
  lemma FiniteToEnd(ts: Stream, at: Stream)
    requires IsSuffix(at, ts) && Finite(Next(at)[0])
    ensures IsSuffix(Next(at), ts) && (FiniteUpTo(ts, Next(at)) <==> FiniteUpTo(ts, at))
  {
    SuffixNext(at, ts);
    FiniteNext(ts, at);
  }

  /** From an opening bracket or a key to a later end. */
  lemma FiniteFromNext(ts: Stream, end: Stream)
    requires Finite(ts[0]) && |ts| > 1 && IsSuffix(end, Next(ts))
    ensures IsSuffix(end, ts) && (FiniteUpTo(ts, end) <==> FiniteUpTo(Next(ts), end))
  {
    SuffixTransitive(end, Next(ts), ts);
    FiniteParts(ts, Next(ts), end);
    assert FiniteUpTo(Next(ts), end) ==> Finite(Next(ts)[0]);
  }

  /** A value, and what follows behind a separator. */
  lemma AcrossAgrees(ts: Stream, p: Parsed, at: Stream, q: Parsed, more: Accepted)
    requires Agree(ts, p, Yes(at)) && Finite(Next(at)[0]) && Agree(Next(Next(at)), q, more)
    ensures Agree(ts, if p.Failed? then p else q, more)
  {
    if more.Yes? {
      FiniteAcross(ts, at, more.at);
    }
  }

  /** A value, and its closing bracket. */
  lemma EndAgrees(ts: Stream, p: Parsed, at: Stream, q: Parsed)
    requires Agree(ts, p, Yes(at)) && Finite(Next(at)[0]) && (p.Got? ==> q.Got? && q.at == Next(at))
    ensures Agree(ts, if p.Failed? then p else q, Yes(Next(at)))
  {
    FiniteToEnd(ts, at);
  }

  /** A key and its separator are no floats. */
  lemma KeyAgrees(ts: Stream, p: Parsed, a: Accepted)
    requires ts[0].ValueString? && Next(ts)[0] == NameSeparator && Agree(Next(Next(ts)), p, a)
    ensures Agree(ts, p, a)
  {
    if a.Yes? {
      FiniteFromNext(Next(ts), a.at);
      FiniteFromNext(ts, a.at);
    }
  }

  lemma {:induction false} ElementsAgree(ts: Stream, a: seq<Json>)
    ensures Agree(ts, ParseElements(ts, a), AcceptElements(ts))
    decreases |ts|, 1
  {
    ValuesAgree(ts);
    var p, v := ParseValue(ts), AcceptValue(ts);
    if v.Yes? {
      var n := Next(v.at);
      var b := if p.Got? then a + [p.value] else a;
      if n[0] == ValueSeparator {
        ElementsAgree(Next(n), b);
        AcrossAgrees(ts, p, v.at, ParseElements(Next(n), b), AcceptElements(Next(n)));
      } else if n[0] == EndArray {
        EndAgrees(ts, p, v.at, Got(Arr(b), n));
      }
    }
  }

  /** The members from one key on, seen from behind the key. */
  lemma {:induction false} MembersAgree(ts: Stream, m: map<string, Json>)
    ensures Agree(ts, ParseMembers(ts, m), AcceptMembers(ts))
    decreases |ts|, 2
  {
    if ts[0].ValueString? && Next(ts)[0] == NameSeparator {
      MemberAgrees(Next(Next(ts)), m, ts[0].s);
      KeyAgrees(ts, AfterKey(Next(Next(ts)), m, ts[0].s), AcceptAfterKey(Next(Next(ts))));
    }
  }

  lemma {:induction false} MemberAgrees(ts: Stream, m: map<string, Json>, key: string)
    ensures Agree(ts, AfterKey(ts, m, key), AcceptAfterKey(ts))
    decreases |ts|, 1
  {
    ValuesAgree(ts);
    var p, v := ParseValue(ts), AcceptValue(ts);
    if v.Yes? {
      var n := Next(v.at);
      var b := if p.Got? then m[key := p.value] else m;
      if n[0] == ValueSeparator {
        MembersAgree(Next(n), b);
        AcrossAgrees(ts, p, v.at, ParseMembers(Next(n), b), AcceptMembers(Next(n)));
      } else if n[0] == EndObject {
        EndAgrees(ts, p, v.at, Got(Obj(b), n));
      }
    }
  }

  /** A container, given that its contents agree. */
  lemma ContainerAgrees(ts: Stream, p: Parsed, a: Accepted)
    requires Finite(ts[0]) && ts[0] != EndOfInput && Agree(Next(ts), p, a)
    ensures Agree(ts, p, a)
  {
    if a.Yes? {
      FiniteFromNext(ts, a.at);
    }
  }

  lemma EmptyAgrees(ts: Stream, value: Json)
    requires Finite(ts[0]) && Finite(Next(ts)[0])
    ensures Agree(ts, Got(value, Next(ts)), Yes(Next(ts)))
  {
    assert ts[0..] == ts;
    FiniteToEnd(ts, ts);
  }

  lemma FiniteHere(ts: Stream)
    ensures IsSuffix(ts, ts) && (FiniteUpTo(ts, ts) <==> Finite(ts[0]))
  {
    assert ts[0..] == ts;
  }

  lemma ScalarAgrees(ts: Stream)
    requires ts[0] != BeginObject && ts[0] != BeginArray
    ensures Agree(ts, ParseValue(ts), AcceptValue(ts))
  {
    FiniteHere(ts);
  }

  /** The acceptor says yes exactly where the parser finds a value or an overflowing float. */
  lemma {:induction false} ValuesAgree(ts: Stream)
    ensures Agree(ts, ParseValue(ts), AcceptValue(ts))
    decreases |ts|, 0
  {
    if ts[0] == BeginObject {
      if Next(ts)[0] == EndObject {
        EmptyAgrees(ts, Obj(map[]));
      } else {
        MembersAgree(Next(ts), map[]);
        ContainerAgrees(ts, ParseMembers(Next(ts), map[]), AcceptMembers(Next(ts)));
      }
    } else if ts[0] == BeginArray {
      if Next(ts)[0] == EndArray {
        EmptyAgrees(ts, Arr([]));
      } else {
        ElementsAgree(Next(ts), []);
        ContainerAgrees(ts, ParseElements(Next(ts), []), AcceptElements(Next(ts)));
      }
    } else {
      ScalarAgrees(ts);
    }
  }

  /** accept(s) is true exactly when parse(s) does not throw, apart from overflowing floats in the value. */
  lemma AcceptIsParse(tokens: Stream, strict: bool)
    ensures Parse(tokens, strict).Got? <==>
      Accept(tokens, strict) && FiniteUpTo(tokens, AcceptValue(tokens).at)
  {
    ValuesAgree(tokens);
  }
}
