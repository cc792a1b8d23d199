/**
 One pointer in two readings.
 */
module PatchReading {
  import opened Integers
  import opened Json
  import opened JsonResult
  import opened JsonPointer
  import opened Numerals
  import opened JsonNavigate
  import opened PatchStandard
  import opened Wrappers

  /** Both fail, or both give the same value. */
  predicate Agrees(r: Result<Json>, s: Option<Json>) {
    (r.Ok? <==> s.Some?) && (r.Ok? ==> r.value == s.value)
  }

  /** The index that operator[] goes to for a token, up to which it lets the array grow. */
  function Place(a: seq<Json>, token: string): Option<nat> {
    var i := if token == "-" then Ok(|a|) else Index(token);
    if i.Err? || (i.value > INT_MAX && i.value > |a|) then None else Some(i.value)
  }

  /** What operator[] makes of null before it goes on with a token. */
  function Founded(token: string): Json {
    if AllDigits(token) || token == "-" then Arr([]) else Obj(map[])
  }

  /** The value operator[](pointer) refers to, null if it is a new one. */
  function Landing(j: Json, tokens: seq<string>): Option<Json>
    decreases tokens
  {
    if tokens == [] then Some(j)
    else
      match if j.Null? then Founded(tokens[0]) else j
      case Obj(m) => Landing(if tokens[0] in m then m[tokens[0]] else Null, tokens[1..])
      case Arr(a) =>
        var i := Place(a, tokens[0]);
        if i.None? then None else Landing(if i.value < |a| then a[i.value] else Null, tokens[1..])
      case _ => None
  }

  // -------------------------------------------------------------------------------------
  // Where the readings of a token differ
  // -------------------------------------------------------------------------------------

  /** std::stoi finds an element in a token that is no index of RFC 6901, like 1x, +1 or a blank before the digits. */
  predicate Strays(j: Json, token: string) {
    j.Arr? && !IsIndex(token) && token != "-" && Index(token).Ok? && Index(token).value < |j.a|
  }

  /** An index that std::stoi cannot read. */
  predicate TooBig(j: Json, token: string) {
    j.Arr? && IsIndex(token) && INT_MAX < NumberOf(token) < |j.a|
  }

  /**
   At some token the readings part, and the one that goes on gets to the end of the pointer: the library behind a stray
   token, the standard behind an index that is too big.
   */
  predicate Misread(j: Json, tokens: seq<string>)
    decreases tokens
  {
    tokens != [] &&
    if Strays(j, tokens[0]) then GetAt(ChildAt(j, tokens[0]).value, tokens[1..]).Ok?
    else if TooBig(j, tokens[0]) then Locate(Child(j, tokens[0]).value, tokens[1..]).Some?
    else Child(j, tokens[0]).Some? && Misread(Child(j, tokens[0]).value, tokens[1..])
  }

  lemma IndexRead(token: string)
    requires IsIndex(token)
    ensures token != "-"
    ensures Index(token) == if NumberOf(token) <= INT_MAX then Ok(NumberOf(token)) else Err(NumberOutOfRange)
    ensures Stoi(token) == if NumberOf(token) <= INT_MAX then Ok(NumberOf(token)) else Err(NumberOutOfRange)
  {
    IndexOfDecimal(NumberOf(token));
    StoiOfDecimal(NumberOf(token));
  }

  /** A child that both find is the same. */
  lemma TokenRead(j: Json, token: string)
    ensures ChildAt(j, token).Ok? && Child(j, token).Some? ==>
      ChildAt(j, token).value == Child(j, token).value && forall v :: SetChild(j, token, v) == PutChild(j, token, v)
    ensures Strays(j, token) <==> ChildAt(j, token).Ok? && Child(j, token).None?
    ensures TooBig(j, token) <==> ChildAt(j, token).Err? && Child(j, token).Some?
  {
    if IsIndex(token) {
      IndexRead(token);
    }
  }

  lemma {:induction false} LookupAgrees(j: Json, tokens: seq<string>)
    ensures GetAt(j, tokens).Ok? && Locate(j, tokens).Some? ==> GetAt(j, tokens).value == Locate(j, tokens).value
    ensures (GetAt(j, tokens).Ok? <==> Locate(j, tokens).Some?) <==> !Misread(j, tokens)
    decreases tokens
  {
    if tokens != [] {
      TokenRead(j, tokens[0]);
      if Child(j, tokens[0]).Some? && ChildAt(j, tokens[0]).Ok? {
        LookupAgrees(Child(j, tokens[0]).value, tokens[1..]);
      }
    }
  }

  // -------------------------------------------------------------------------------------
  // When the library succeeds
  // -------------------------------------------------------------------------------------

  lemma {:induction false} CheckedReaches(j: Json, tokens: seq<string>, e: Edit)
    ensures ModifyChecked(j, tokens, e).Ok? <==> GetAt(j, tokens).Ok? && ApplyEdit(GetAt(j, tokens).value, e).Ok?
    decreases tokens
  {
    if tokens != [] && ChildAt(j, tokens[0]).Ok? {
      CheckedReaches(ChildAt(j, tokens[0]).value, tokens[1..], e);
    }
  }

  lemma {:induction false} CreatingReaches(j: Json, tokens: seq<string>, e: Edit)
    ensures ModifyCreating(j, tokens, e).Ok? <==> Landing(j, tokens).Some? && ApplyEdit(Landing(j, tokens).value, e).Ok?
    decreases tokens
  {
    if tokens != [] {
      match if j.Null? then Founded(tokens[0]) else j
      case Obj(m) => CreatingReaches(if tokens[0] in m then m[tokens[0]] else Null, tokens[1..], e);
      case Arr(a) =>
        var i := Place(a, tokens[0]);
        if i.Some? {
          assert Grown(a, i.value)[i.value] == if i.value < |a| then a[i.value] else Null;
          CreatingReaches(if i.value < |a| then a[i.value] else Null, tokens[1..], e);
        }
      case _ =>
    }
  }

  lemma {:induction false} LandingLast(j: Json, tokens: seq<string>)
    requires tokens != []
    ensures Landing(j, tokens) ==
      if Landing(j, Front(tokens)).None? then None else Landing(Landing(j, Front(tokens)).value, [Final(tokens)])
    decreases tokens
  {
    if |tokens| == 1 {
      assert tokens == [Final(tokens)];
    } else {
      FrontStep(tokens);
      match if j.Null? then Founded(tokens[0]) else j
      case Obj(m) => LandingLast(if tokens[0] in m then m[tokens[0]] else Null, tokens[1..]);
      case Arr(a) =>
        var i := Place(a, tokens[0]);
        if i.Some? {
          LandingLast(if i.value < |a| then a[i.value] else Null, tokens[1..]);
        }
      case _ =>
    }
  }

  lemma FrontStep(tokens: seq<string>)
    requires |tokens| > 1
    ensures Front(tokens) != [] && Front(tokens)[0] == tokens[0]
    ensures Front(tokens)[1..] == Front(tokens[1..]) && Final(tokens) == Final(tokens[1..])
  {
  }

  // -------------------------------------------------------------------------------------
  // What a change at the end of a pointer does to the document
  // -------------------------------------------------------------------------------------

  lemma {:induction false} ReplaceReaches(j: Json, tokens: seq<string>, v: Json)
    ensures StandardReplace(j, tokens, v).Some? <==> Locate(j, tokens).Some?
    decreases tokens
  {
    if tokens != [] && Child(j, tokens[0]).Some? {
      ReplaceReaches(Child(j, tokens[0]).value, tokens[1..], v);
    }
  }

  lemma PutChildInjective(j: Json, token: string, v: Json, w: Json)
    requires Child(j, token).Some? && PutChild(j, token, v) == PutChild(j, token, w)
    ensures v == w
  {
    if j.Obj? {
      assert j.m[token := v][token] == j.m[token := w][token];
    } else {
      assert j.a[NumberOf(token) := v][NumberOf(token)] == j.a[NumberOf(token) := w][NumberOf(token)];
    }
  }

  lemma {:induction false} ReplaceInjective(j: Json, tokens: seq<string>, v: Json, w: Json)
    requires Locate(j, tokens).Some? && StandardReplace(j, tokens, v) == StandardReplace(j, tokens, w)
    ensures v == w
    decreases tokens
  {
    if tokens != [] {
      var c, rest := Child(j, tokens[0]).value, tokens[1..];
      ReplaceReaches(c, rest, v);
      ReplaceReaches(c, rest, w);
      PutChildInjective(j, tokens[0], StandardReplace(c, rest, v).value, StandardReplace(c, rest, w).value);
      ReplaceInjective(c, rest, v, w);
    }
  }

  /** A result at a place of the document, as a result for the document. */
  function Lift(j: Json, tokens: seq<string>, r: Result<Json>): Result<Json>
    requires Locate(j, tokens).Some?
  {
    if r.Err? then r
    else
      ReplaceReaches(j, tokens, r.value);
      Ok(StandardReplace(j, tokens, r.value).value)
  }

  /** Results for the document agree exactly when those at the place do. */
  lemma LiftAgrees(j: Json, tokens: seq<string>, r: Result<Json>, s: Option<Json>)
    requires Locate(j, tokens).Some?
    ensures Agrees(Lift(j, tokens, r), if s.None? then None else StandardReplace(j, tokens, s.value)) <==> Agrees(r, s)
  {
    if r.Ok? && s.Some? {
      ReplaceReaches(j, tokens, r.value);
      ReplaceReaches(j, tokens, s.value);
      if StandardReplace(j, tokens, r.value) == StandardReplace(j, tokens, s.value) {
        ReplaceInjective(j, tokens, r.value, s.value);
      }
    }
  }

  lemma LiftStep(j: Json, tokens: seq<string>, r: Result<Json>)
    requires tokens != [] && Locate(j, tokens).Some?
    ensures Lift(j, tokens, r) ==
      (var x := Lift(Child(j, tokens[0]).value, tokens[1..], r); if x.Err? then x else Ok(PutChild(j, tokens[0], x.value)))
  {
    if r.Ok? {
      ReplaceReaches(j, tokens, r.value);
    }
  }

  lemma {:induction false} CheckedThere(j: Json, tokens: seq<string>, e: Edit)
    requires GetAt(j, tokens).Ok? && Locate(j, tokens).Some?
    ensures ModifyChecked(j, tokens, e) == Lift(j, tokens, ApplyEdit(Locate(j, tokens).value, e))
    decreases tokens
  {
    if tokens != [] {
      TokenRead(j, tokens[0]);
      CheckedThere(Child(j, tokens[0]).value, tokens[1..], e);
      LiftStep(j, tokens, ApplyEdit(Locate(j, tokens).value, e));
    }
  }

  /** In one step of the creating walk, where the standard finds the child. */
  lemma CreatingToken(j: Json, token: string)
    requires Child(j, token).Some?
    ensures ChildAt(j, token).Ok? <==> !TooBig(j, token)
    ensures j.Arr? ==> if TooBig(j, token) then Place(j.a, token).None? else Place(j.a, token) == Some(NumberOf(token))
  {
    TokenRead(j, token);
    if j.Arr? {
      IndexRead(token);
    }
  }

  lemma {:induction false} CreatingThere(j: Json, tokens: seq<string>, rest: seq<string>, e: Edit)
    requires Landing(j, tokens).Some? && Locate(j, tokens).Some?
    ensures Landing(j, tokens) == Locate(j, tokens)
    ensures ModifyCreating(j, tokens + rest, e) == Lift(j, tokens, ModifyCreating(Locate(j, tokens).value, rest, e))
    ensures tokens != [] ==> ChildAt(j, tokens[0]).Ok?
    decreases tokens
  {
    if tokens == [] {
      assert tokens + rest == rest;
    } else {
      var c, behind := Child(j, tokens[0]).value, tokens[1..];
      CreatingToken(j, tokens[0]);
      TokenRead(j, tokens[0]);
      CreatingThere(c, behind, rest, e);
      assert tokens + rest == [tokens[0]] + (behind + rest);
      CreatingStep(j, tokens[0], behind + rest, e);
      LiftStep(j, tokens, ModifyCreating(Locate(j, tokens).value, rest, e));
    }
  }
}
