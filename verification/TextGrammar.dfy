/**
 JSON texts (section 2 of RFC 7159): a text is parsed exactly when it spells a value, and to what it means.
 */
module TextGrammar {
  import opened Json
  import opened JsonParse
  import opened JsonLex
  import opened TokenGrammar
  import opened ValueGrammar
  import opened Sequences

  /** The text spells the value of the tree; only strict parsing minds what follows. */
  ghost predicate SpellsTree(s: string, t: Tree, rest: string, strict: bool, f: string -> UInt64) {
    IsTree(t) && Spells(s, Yield(t), rest, f) && (strict ==> AtEnd(rest))
  }

  /** The text spells a value. */
  ghost predicate IsText(s: string, strict: bool, f: string -> UInt64) {
    exists t, rest :: SpellsTree(s, t, rest, strict, f)
  }

  /** The text spells v, and no number in it is out of range. */
  ghost predicate Means(s: string, v: Json, strict: bool, f: string -> UInt64) {
    exists t, rest :: SpellsTree(s, t, rest, strict, f) && AllInRange(Yield(t)) && v == Meaning(t)
  }

  lemma StandJoined(xs: seq<Token>, ys: seq<Token>)
    requires AllStand(xs) && AllStand(ys)
    ensures AllStand(xs + ys)
  {
  }

  lemma {:induction false} ElementsStand(es: seq<Tree>)
    requires AreTrees(es)
    ensures AllStand(ElementYield(es))
    decreases es
  {
    if es != [] {
      TreeStands(es[0]);
      ElementsStand(es[1..]);
      StandJoined([ValueSeparator], ElementYield(es[1..]));
      StandJoined(Yield(es[0]), if |es| == 1 then [] else [ValueSeparator] + ElementYield(es[1..]));
    }
  }

  lemma {:induction false} MembersStand(ms: seq<Member>)
    requires AreMembers(ms)
    ensures AllStand(MemberYield(ms))
    decreases ms
  {
    if ms != [] {
      TreeStands(ms[0].value);
      MembersStand(ms[1..]);
      var more := if |ms| == 1 then [] else [ValueSeparator] + MemberYield(ms[1..]);
      StandJoined([ValueSeparator], MemberYield(ms[1..]));
      StandJoined(Yield(ms[0].value), more);
      StandJoined(KeyYield(ms[0].key), Yield(ms[0].value) + more);
    }
  }

  /** Neither errors nor ends are inside a value. */
  lemma {:induction false} TreeStands(t: Tree)
    requires IsTree(t)
    ensures AllStand(Yield(t))
    decreases t
  {
    match t
    case Scalar(_) =>
    case Array(es) => ElementsStand(es);
    case Object(ms) => MembersStand(ms);
  }

  lemma SpelledDerives(s: string, t: Tree, rest: string, strict: bool, f: string -> UInt64)
    requires SpellsTree(s, t, rest, strict, f)
    ensures Derives(t, Tokens(s, f), Tokens(rest, f), strict)
  {
    TreeStands(t);
    SpelledLexes(s, Yield(t), rest, f);
    if strict {
      ScansEnd(rest, f);
    }
  }

  lemma DerivedSpells(s: string, t: Tree, more: Stream, strict: bool, f: string -> UInt64) returns (rest: string)
    requires Derives(t, Tokens(s, f), more, strict)
    ensures SpellsTree(s, t, rest, strict, f)
  {
    TreeStands(t);
    rest := LexedSpells(s, Yield(t), more, f);
    ScansEnd(rest, f);
  }

  /** A text is accepted exactly when it spells a value. */
  lemma AcceptsTexts(s: string, strict: bool, f: string -> UInt64)
    ensures Accept(Tokens(s, f), strict) <==> IsText(s, strict, f)
  {
    AcceptsTrees(Tokens(s, f), strict);
    if t, more :| Derives(t, Tokens(s, f), more, strict) {
      var rest := DerivedSpells(s, t, more, strict, f);
    }
    if t, rest :| SpellsTree(s, t, rest, strict, f) {
      SpelledDerives(s, t, rest, strict, f);
    }
  }

  /** A text is parsed exactly to what it means. */
  lemma ParsesTexts(s: string, strict: bool, v: Json, f: string -> UInt64)
    ensures var p := Parse(Tokens(s, f), strict); (p.Got? && p.value == v <==> Means(s, v, strict, f))
  {
    ParsesTrees(Tokens(s, f), strict, v);
    var p := Parse(Tokens(s, f), strict);
    if p.Got? && p.value == v {
      var t, more := ParsedIsTree(Tokens(s, f), strict);
      var rest := DerivedSpells(s, t, more, strict, f);
    }
    if t, rest :| SpellsTree(s, t, rest, strict, f) && AllInRange(Yield(t)) && v == Meaning(t) {
      SpelledDerives(s, t, rest, strict, f);
      TreeIsParsed(t, Tokens(s, f), Tokens(rest, f), strict);
    }
  }
}
