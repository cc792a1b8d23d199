/**
 The parser object: recursive descent over the tokens that its lexer scans.
 */
module JsonParser {
  import opened Json
  import opened JsonParse
  import opened JsonLex
  import opened Wrappers
  import TextGrammar

  datatype Outcome = Value(value: Json) | Thrown(error: SyntaxError)

  /** What is left to do after one member. */
  datatype Progress = More(m: map<string, Json>) | Finished(outcome: Outcome)

  function OutcomeOf(p: Parsed): Outcome {
    if p.Got? then Value(p.value) else Thrown(p.error)
  }

  /** Behind these tokens nothing more is scanned. */
  predicate IsLast(t: Token) {
    t == EndOfInput || t == ParseError
  }

  /** The stream ts begins with the tokens already scanned; the lexer finds the others in the rest of the input. */
  ghost predicate InStep(scanned: seq<Token>, ts: seq<Token>, rest: string, f: string -> UInt64) {
    if scanned == [] then ts == Tokens(rest, f)
    else ts != [] && ts[0] == scanned[0] && (IsLast(ts[0]) || InStep(scanned[1..], ts[1..], rest, f))
  }

  lemma StepAhead(t: Token, ts: Stream, rest: string, f: string -> UInt64)
    requires InStep([t], ts, rest, f) && !IsLast(t)
    ensures Next(ts) == Tokens(rest, f)
  {
    assert InStep([t][1..], ts[1..], rest, f);
    assert [t][1..] == [];
  }

  lemma StepTaken(ts: Stream, rest: string, l: Lexed, next: string, f: string -> UInt64)
    requires ts == Tokens(rest, f) && l == Scan(rest, f) && (!IsLast(l.token) ==> next == l.rest)
    ensures InStep([l.token], ts, next, f)
  {
    assert [l.token][1..] == [];
    if !IsLast(l.token) {
      assert ts[1..] == Tokens(next, f);
    }
  }

  /** What behind a member the members so far lead to. */
  function AfterMember(n: Stream, m: map<string, Json>): Parsed {
    if n[0] == ValueSeparator then ParseMembers(Next(n), m)
    else if n[0] == EndObject then JsonParse.Got(Obj(m), n)
    else Failed(Unexpected)
  }

  lemma MemberSpec(ts: Stream, name: string, m: map<string, Json>)
    requires ts[0] == ValueString(name) && Next(ts)[0] == NameSeparator
    ensures var v := ParseValue(Next(Next(ts)));
      ParseMembers(ts, m) == if v.Failed? then v else AfterMember(Next(v.at), m[name := v.value])
  {
  }

  function AfterAccepted(n: Stream): Accepted {
    if n[0] == ValueSeparator then AcceptMembers(Next(n)) else if n[0] == EndObject then Yes(n) else No
  }

  lemma AcceptSpec(ts: Stream)
    requires ts[0].ValueString? && Next(ts)[0] == NameSeparator
    ensures var v := AcceptValue(Next(Next(ts)));
      AcceptMembers(ts) == if v.No? then No else AfterAccepted(Next(v.at))
  {
  }

  class Parser {
    const lexer: Lexer
    var last: Token
    /** The last token and those that the lexer is still to find. */
    ghost var tokens: Stream

    constructor (input: string, toFloat: string -> UInt64)
      ensures Valid() && fresh(lexer) && last == Uninitialized && tokens == [Uninitialized] + Tokens(input, toFloat)
    {
      lexer := new Lexer(input, toFloat);
      last := Uninitialized;
      tokens := [Uninitialized] + Tokens(input, toFloat);
      new;
      assert [Uninitialized][1..] == [] && tokens[1..] == Tokens(input, toFloat);
    }

    ghost predicate Valid()
      reads this, lexer
    {
      lexer.Valid() && InStep([last], tokens, lexer.Rest(), lexer.toFloat)
    }

    method GetToken()
      requires Valid() && !IsLast(last)
      modifies this, lexer
      ensures Valid() && tokens == Next(old(tokens))
    {
      ghost var rest := lexer.Rest();
      StepAhead(last, tokens, rest, lexer.toFloat);
      tokens := Next(tokens);
      last := lexer.ScanToken();
      StepTaken(tokens, rest, Scan(rest, lexer.toFloat), lexer.Rest(), lexer.toFloat);
    }

    /** The outcome and the position agree with the specification. */
    ghost predicate Agrees(r: Outcome, spec: Parsed)
      reads this
    {
      match spec
      case Got(value, at) => r == Value(value) && tokens == at && !IsLast(at[0])
      case Failed(error) => r == Thrown(error)
    }

    method ParseInternal() returns (r: Outcome)
      requires Valid()
      modifies this, lexer
      ensures Valid() && |tokens| <= |old(tokens)| && Agrees(r, ParseValue(old(tokens)))
      decreases |tokens|, 0
    {
      match last
      case BeginObject =>
        GetToken();
        if last == EndObject {
          return Value(Obj(map[]));
        }
        r := ParseObject();
      case BeginArray =>
        GetToken();
        if last == EndArray {
          return Value(Arr([]));
        }
        r := ParseArray();
      case LiteralNull => r := Value(Null);
      case LiteralTrue => r := Value(Bool(true));
      case LiteralFalse => r := Value(Bool(false));
      case ValueString(s) => r := Value(Str(s));
      case ValueUnsigned(u) => r := Value(UInt(u));
      case ValueInteger(i) => r := Value(Int(i));
      case ValueFloat(bits) => r := if Finite(last) then Value(Float(bits)) else Thrown(NumberOverflow);
      case _ => r := Thrown(Unexpected);
    }

    /** The loop over the elements of an array. */
    method ParseArray() returns (r: Outcome)
      requires Valid()
      modifies this, lexer
      ensures Valid() && |tokens| <= |old(tokens)| && Agrees(r, ParseElements(old(tokens), []))
      decreases |tokens|, 1
    {
      var result: seq<Json> := [];
      ghost var spec := ParseElements(tokens, []);
      while true
        invariant Valid() && |tokens| <= |old(tokens)| && spec == ParseElements(tokens, result)
        decreases |tokens|
      {
        var value := ParseInternal();
        if value.Thrown? {
          return value;
        }
        result := result + [value.value];
        GetToken();
        if last == ValueSeparator {
          GetToken();
        } else {
          return if last == EndArray then Value(Arr(result)) else Thrown(Unexpected);
        }
      }
    }

    /** A key and the separator behind it; the value follows. */
    method GetKey() returns (key: Option<string>)
      requires Valid()
      modifies this, lexer
      ensures Valid() && |tokens| <= |old(tokens)|
      ensures match key
        case Some(name) => old(tokens)[0] == ValueString(name) && Next(old(tokens))[0] == NameSeparator
          && tokens == Next(Next(old(tokens))) && |tokens| < |old(tokens)|
        case None => !old(tokens)[0].ValueString? || Next(old(tokens))[0] != NameSeparator
    {
      if !last.ValueString? {
        return None;
      }
      var name := last.s;
      GetToken();
      if last != NameSeparator {
        return None;
      }
      GetToken();
      return Some(name);
    }

    /** Behind a member: a comma and the next one, or the end. */
    method ParseSeparator(m: map<string, Json>) returns (r: Progress)
      requires Valid() && !IsLast(last)
      modifies this, lexer
      ensures Valid() && |tokens| <= |old(tokens)|
      ensures match r
        case More(m1) => m1 == m && |tokens| < |old(tokens)| && AfterMember(Next(old(tokens)), m) == ParseMembers(tokens, m)
        case Finished(outcome) => Agrees(outcome, AfterMember(Next(old(tokens)), m))
    {
      GetToken();
      if last == ValueSeparator {
        GetToken();
        return More(m);
      }
      return Finished(if last == EndObject then Value(Obj(m)) else Thrown(Unexpected));
    }

    /** One round of the loop over the members of an object. */
    method ParseMember(result: map<string, Json>) returns (r: Progress)
      requires Valid()
      modifies this, lexer
      ensures Valid() && |tokens| <= |old(tokens)|
      ensures match r
        case More(m) => |tokens| < |old(tokens)| && ParseMembers(old(tokens), result) == ParseMembers(tokens, m)
        case Finished(outcome) => Agrees(outcome, ParseMembers(old(tokens), result))
      decreases |tokens|, 1
    {
      ghost var ts := tokens;
      var key := GetKey();
      if key.None? {
        return Finished(Thrown(Unexpected));
      }
      MemberSpec(ts, key.value, result);
      var value := ParseInternal();
      if value.Thrown? {
        return Finished(value);
      }
      r := ParseSeparator(result[key.value := value.value]);
    }

    /** The loop over the members of an object. */
    method ParseObject() returns (r: Outcome)
      requires Valid()
      modifies this, lexer
      ensures Valid() && |tokens| <= |old(tokens)| && Agrees(r, ParseMembers(old(tokens), map[]))
      decreases |tokens|, 2
    {
      var result: map<string, Json> := map[];
      ghost var spec := ParseMembers(tokens, map[]);
      while true
        invariant Valid() && |tokens| <= |old(tokens)| && spec == ParseMembers(tokens, result)
        decreases |tokens|
      {
        var p := ParseMember(result);
        match p
        case More(m) => result := m;
        case Finished(outcome) => return outcome;
      }
    }

    ghost predicate Says(yes: bool, spec: Accepted)
      reads this
    {
      match spec
      case Yes(at) => yes && tokens == at && !IsLast(at[0])
      case No => !yes
    }

    method AcceptInternal() returns (yes: bool)
      requires Valid()
      modifies this, lexer
      ensures Valid() && |tokens| <= |old(tokens)| && Says(yes, AcceptValue(old(tokens)))
      decreases |tokens|, 0
    {
      match last
      case BeginObject =>
        GetToken();
        if last == EndObject {
          return true;
        }
        yes := AcceptObject();
      case BeginArray =>
        GetToken();
        if last == EndArray {
          return true;
        }
        yes := AcceptArray();
      case LiteralFalse => yes := true;
      case LiteralNull => yes := true;
      case LiteralTrue => yes := true;
      case ValueFloat(_) => yes := true;
      case ValueInteger(_) => yes := true;
      case ValueString(_) => yes := true;
      case ValueUnsigned(_) => yes := true;
      case _ => yes := false;
    }

    method AcceptArray() returns (yes: bool)
      requires Valid()
      modifies this, lexer
      ensures Valid() && |tokens| <= |old(tokens)| && Says(yes, AcceptElements(old(tokens)))
      decreases |tokens|, 1
    {
      ghost var spec := AcceptElements(tokens);
      while true
        invariant Valid() && |tokens| <= |old(tokens)| && spec == AcceptElements(tokens)
        decreases |tokens|
      {
        var value := AcceptInternal();
        if !value {
          return false;
        }
        GetToken();
        if last == ValueSeparator {
          GetToken();
        } else {
          return last == EndArray;
        }
      }
    }

    method AcceptMember() returns (yes: bool)
      requires Valid()
      modifies this, lexer
      ensures Valid() && |tokens| <= |old(tokens)|
      ensures if yes then |tokens| < |old(tokens)| && !IsLast(last) && AcceptMembers(old(tokens)) == AfterAccepted(Next(tokens))
        else AcceptMembers(old(tokens)) == No
      decreases |tokens|, 1
    {
      ghost var ts := tokens;
      var key := GetKey();
      if key.None? {
        return false;
      }
      AcceptSpec(ts);
      yes := AcceptInternal();
    }

    method AcceptObject() returns (yes: bool)
      requires Valid()
      modifies this, lexer
      ensures Valid() && |tokens| <= |old(tokens)| && Says(yes, AcceptMembers(old(tokens)))
      decreases |tokens|, 2
    {
      ghost var spec := AcceptMembers(tokens);
      while true
        invariant Valid() && |tokens| <= |old(tokens)| && spec == AcceptMembers(tokens)
        decreases |tokens|
      {
        var member := AcceptMember();
        if !member {
          return false;
        }
        GetToken();
        if last == ValueSeparator {
          GetToken();
        } else {
          return last == EndObject;
        }
      }
    }

    /** parse, before the first token is read. */
    method ParseInput(strict: bool) returns (r: Outcome)
      requires Valid() && last == Uninitialized
      modifies this, lexer
      ensures r == OutcomeOf(Parse(Next(old(tokens)), strict))
    {
      GetToken();
      r := ParseInternal();
      if r.Value? && strict {
        GetToken();
        if last != EndOfInput {
          return Thrown(Unexpected);
        }
      }
    }

    /** accept, before the first token is read. */
    method AcceptInput(strict: bool) returns (yes: bool)
      requires Valid() && last == Uninitialized
      modifies this, lexer
      ensures yes == Accept(Next(old(tokens)), strict)
    {
      GetToken();
      yes := AcceptInternal();
      if yes && strict {
        GetToken();
        yes := last == EndOfInput;
      }
    }
  }

  /** basic_json::parse for a string: the value that the text means. */
  method ParseText(input: string, toFloat: string -> UInt64, strict: bool) returns (r: Outcome)
    ensures r == OutcomeOf(Parse(Tokens(input, toFloat), strict))
    ensures forall v :: r == Value(v) <==> TextGrammar.Means(input, v, strict, toFloat)
  {
    var parser := new Parser(input, toFloat);
    r := parser.ParseInput(strict);
    forall v ensures r == Value(v) <==> TextGrammar.Means(input, v, strict, toFloat) {
      TextGrammar.ParsesTexts(input, strict, v, toFloat);
    }
  }

  /** basic_json::accept for a string: whether the text spells a value, even if parse throws on an overflowing float. */
  method AcceptText(input: string, toFloat: string -> UInt64, strict: bool) returns (yes: bool)
    ensures yes == Accept(Tokens(input, toFloat), strict)
    ensures yes <==> TextGrammar.IsText(input, strict, toFloat)
    ensures OutcomeOf(Parse(Tokens(input, toFloat), strict)).Value? ==> yes
    ensures yes && (forall t :: t in Tokens(input, toFloat) ==> Finite(t)) ==>
      OutcomeOf(Parse(Tokens(input, toFloat), strict)).Value?
  {
    var parser := new Parser(input, toFloat);
    yes := parser.AcceptInput(strict);
    AcceptIsParse(Tokens(input, toFloat), strict);
    TextGrammar.AcceptsTexts(input, strict, toFloat);
  }
}
