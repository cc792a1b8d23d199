/**
 Where JSON Patch is that of RFC 6902.
 */
module PatchAgreement {
  import opened Integers
  import opened Json
  import opened JsonResult
  import opened JsonPointer
  import opened Numerals
  import opened JsonNavigate
  import opened JsonPatch
  import opened NumericEquality
  import opened PatchStandard
  import opened PatchReading
  import opened Wrappers

  // -------------------------------------------------------------------------------------
  // replace and test
  // -------------------------------------------------------------------------------------

  lemma ReplaceAgrees(j: Json, tokens: seq<string>, v: Json)
    ensures Agrees(ModifyChecked(j, tokens, Assign(v)), StandardReplace(j, tokens, v)) <==> !Misread(j, tokens)
  {
    LookupAgrees(j, tokens);
    CheckedReaches(j, tokens, Assign(v));
    ReplaceReaches(j, tokens, v);
    if GetAt(j, tokens).Ok? && Locate(j, tokens).Some? {
      CheckedThere(j, tokens, Assign(v));
    }
  }

  /** Numbers that operator== takes for equal are; or only one of both finds the value, and to that it is not equal. */
  predicate TestConforms(j: Json, tokens: seq<string>, v: Json) {
    var p, q := GetAt(j, tokens), Locate(j, tokens);
    if p.Ok? && q.Some? then !(Eq(q.value, v) && Clash(q.value, v))
    else (p.Ok? ==> !Eq(p.value, v)) && (q.Some? ==> !StandardEq(q.value, v))
  }

  lemma TestAgrees(j: Json, op: PatchOp)
    requires op.Test? && Split(op.path).Ok?
    ensures Agrees(ApplyOp(j, op), StandardOp(j, op)) <==> TestConforms(j, Split(op.path).value, op.value)
  {
    var tokens := Split(op.path).value;
    LookupAgrees(j, tokens);
    if Locate(j, tokens).Some? {
      EqualUnlessClash(Locate(j, tokens).value, op.value);
    }
  }

  // -------------------------------------------------------------------------------------
  // remove
  // -------------------------------------------------------------------------------------

  /** The library removes something, or nothing without an error. A last token may have leading zeros. */
  predicate Erases(j: Json, token: string) {
    match j
    case Obj(m) => token in m
    case Arr(a) => Stoi(token).Ok? && 0 <= Stoi(token).value < |a|
    case _ => true
  }

  /**
   The parent is an object or array, and the library finds the child in it exactly when the standard does; or only one
   of both finds the parent, and not the child.
   */
  predicate RemoveConforms(j: Json, tokens: seq<string>) {
    tokens == [] ||
    var p, q := GetAt(j, Front(tokens)), Parent(j, tokens);
    if p.Ok? && q.Some? then !IsPrimitive(q.value) && (Erases(q.value, Final(tokens)) <==> Child(q.value, Final(tokens)).Some?)
    else (p.Ok? ==> !Erases(p.value, Final(tokens))) && (q.Some? ==> Child(q.value, Final(tokens)).None?)
  }

  lemma RemoveHere(j: Json, token: string)
    ensures Agrees(ApplyEdit(j, RemoveChild(token)), RemoveMember(j, token))
      <==> !IsPrimitive(j) && (Erases(j, token) <==> Child(j, token).Some?)
    ensures ApplyEdit(j, RemoveChild(token)).Ok? <==> Erases(j, token)
  {
    if IsIndex(token) {
      IndexRead(token);
    }
  }

  lemma RemoveAgrees(j: Json, tokens: seq<string>)
    ensures Agrees(RemoveAt(j, tokens), StandardRemove(j, tokens)) <==> RemoveConforms(j, tokens)
  {
    if tokens != [] {
      var p, q := GetAt(j, Front(tokens)), Parent(j, tokens);
      LookupAgrees(j, Front(tokens));
      CheckedReaches(j, Front(tokens), RemoveChild(Final(tokens)));
      if p.Ok? {
        RemoveHere(p.value, Final(tokens));
      }
      StandardRemoves(j, tokens);
      if p.Ok? && q.Some? {
        CheckedThere(j, Front(tokens), RemoveChild(Final(tokens)));
        LiftAgrees(j, Front(tokens), ApplyEdit(q.value, RemoveChild(Final(tokens))), RemoveMember(q.value, Final(tokens)));
      }
    }
  }

  lemma StandardRemoves(j: Json, tokens: seq<string>)
    requires tokens != []
    ensures StandardRemove(j, tokens).Some? <==> Parent(j, tokens).Some? && Child(Parent(j, tokens).value, Final(tokens)).Some?
  {
    if Parent(j, tokens).Some? && Child(Parent(j, tokens).value, Final(tokens)).Some? {
      ReplaceReaches(j, Front(tokens), RemoveMember(Parent(j, tokens).value, Final(tokens)).value);
    }
  }

  // -------------------------------------------------------------------------------------
  // add
  // -------------------------------------------------------------------------------------

  /** The library adds something below a value, or nothing without an error. */
  predicate Adds(j: Json, token: string) {
    j.Arr? ==> token == "-" || (Stoi(token).Ok? && 0 <= Stoi(token).value <= |j.a|)
  }

  /** The standard has a place for the token in a value. */
  predicate Takes(j: Json, token: string) {
    match j
    case Obj(_) => true
    case Arr(a) => token == "-" || (IsIndex(token) && NumberOf(token) <= |a|)
    case _ => false
  }

  /** The first token exists, and operator[] finds or creates a place for the last one. */
  predicate LibraryAdds(j: Json, tokens: seq<string>) {
    tokens == [] ||
    ((|tokens| > 1 ==> ChildAt(j, tokens[0]).Ok?)
     && Landing(j, Front(tokens)).Some? && Adds(Landing(j, Front(tokens)).value, Final(tokens)))
  }

  predicate StandardAdds(j: Json, tokens: seq<string>) {
    tokens == [] || (Parent(j, tokens).Some? && Takes(Parent(j, tokens).value, Final(tokens)))
  }

  /**
   The parent is an object or array that has a place for the token in both readings or in neither; or only one of both
   gets to a parent, and has no place in it.
   */
  predicate AddConforms(j: Json, tokens: seq<string>) {
    tokens == [] ||
    var p, q := Landing(j, Front(tokens)), Parent(j, tokens);
    if p.Some? && q.Some? then !IsPrimitive(q.value) && (Adds(q.value, Final(tokens)) <==> Takes(q.value, Final(tokens)))
    else !LibraryAdds(j, tokens) && !StandardAdds(j, tokens)
  }

  lemma AddHere(j: Json, token: string, v: Json)
    ensures Agrees(ApplyEdit(j, AddChild(token, v)), AddMember(j, token, v))
      <==> !IsPrimitive(j) && (Adds(j, token) <==> Takes(j, token))
    ensures ApplyEdit(j, AddChild(token, v)).Ok? <==> Adds(j, token)
    ensures AddMember(j, token, v).Some? <==> Takes(j, token)
  {
    if IsIndex(token) {
      IndexRead(token);
    }
  }

  lemma AddsExactly(j: Json, tokens: seq<string>, v: Json)
    ensures AddAt(j, tokens, v, true).Ok? <==> LibraryAdds(j, tokens)
    ensures StandardAdd(j, tokens, v).Some? <==> StandardAdds(j, tokens)
  {
    if tokens != [] {
      var e := AddChild(Final(tokens), v);
      assert GetAt(j, [tokens[0]]) == ChildAt(j, tokens[0]) by { assert [tokens[0]][1..] == []; }
      CreatingReaches(j, Front(tokens), e);
      if Landing(j, Front(tokens)).Some? {
        AddHere(Landing(j, Front(tokens)).value, Final(tokens), v);
      }
      if Parent(j, tokens).Some? {
        AddHere(Parent(j, tokens).value, Final(tokens), v);
        var r := AddMember(Parent(j, tokens).value, Final(tokens), v);
        if r.Some? {
          ReplaceReaches(j, Front(tokens), r.value);
        }
      }
    }
  }

  lemma AddAgrees(j: Json, tokens: seq<string>, v: Json)
    ensures Agrees(AddAt(j, tokens, v, true), StandardAdd(j, tokens, v)) <==> AddConforms(j, tokens)
  {
    AddsExactly(j, tokens, v);
    if tokens != [] && Landing(j, Front(tokens)).Some? && Parent(j, tokens).Some? {
      var front, e, q := Front(tokens), AddChild(Final(tokens), v), Parent(j, tokens).value;
      assert GetAt(j, [tokens[0]]) == ChildAt(j, tokens[0]) by { assert [tokens[0]][1..] == []; }
      CreatingThere(j, front, [], e);
      assert front + [] == front;
      AddHere(q, Final(tokens), v);
      LiftAgrees(j, front, ApplyEdit(q, e), AddMember(q, Final(tokens), v));
    }
  }

  // -------------------------------------------------------------------------------------
  // copy
  // -------------------------------------------------------------------------------------

  /** An element of an array is overwritten, not moved on; behind the end the library fills up with nulls. */
  predicate AssignsAlike(j: Json, token: string) {
    match j
    case Obj(_) => true
    case Arr(a) =>
      token == "-" ||
      if Place(a, token).Some? then IsIndex(token) && NumberOf(token) == |a| else !Takes(j, token)
    case _ => Landing(j, [token]).None?
  }

  /**
   The parent takes the value as a member or as one more element; or only one of both gets to a parent, and has no place
   in it.
   */
  predicate CopyConforms(j: Json, tokens: seq<string>) {
    tokens == [] ||
    var p, q := Landing(j, Front(tokens)), Parent(j, tokens);
    if p.Some? && q.Some? then AssignsAlike(q.value, Final(tokens))
    else Landing(j, tokens).None? && !StandardAdds(j, tokens)
  }

  lemma AssignHere(j: Json, token: string, v: Json)
    ensures Agrees(ModifyCreating(j, [token], Assign(v)), AddMember(j, token, v)) <==> AssignsAlike(j, token)
  {
    assert [token][1..] == [];
    CreatingReaches(j, [token], Assign(v));
    if j.Arr? {
      AssignElement(j.a, token, v);
    }
  }

  lemma AssignElement(a: seq<Json>, token: string, v: Json)
    ensures Agrees(ModifyCreating(Arr(a), [token], Assign(v)), AddMember(Arr(a), token, v)) <==> AssignsAlike(Arr(a), token)
  {
    assert [token][1..] == [];
    if IsIndex(token) {
      IndexRead(token);
    }
    assert Grown(a, |a|)[|a| := v] == a + [v] && a[..|a|] + [v] + a[|a|..] == a + [v];
    var i := Place(a, token);
    if i.Some? && i.value < |a| && Takes(Arr(a), token) {
      assert |a[i.value := v]| != |AddMember(Arr(a), token, v).value.a|;
    }
  }

  lemma AssignAgrees(j: Json, tokens: seq<string>, v: Json)
    ensures Agrees(ModifyCreating(j, tokens, Assign(v)), StandardAdd(j, tokens, v)) <==> CopyConforms(j, tokens)
  {
    AddsExactly(j, tokens, v);
    CreatingReaches(j, tokens, Assign(v));
    if tokens != [] {
      LandingLast(j, tokens);
      if Landing(j, Front(tokens)).Some? && Parent(j, tokens).Some? {
        var front, last, q := Front(tokens), Final(tokens), Parent(j, tokens).value;
        assert tokens == front + [last];
        CreatingThere(j, front, [last], Assign(v));
        AssignHere(q, last, v);
        LiftAgrees(j, front, ModifyCreating(q, [last], Assign(v)), AddMember(q, last, v));
      }
    }
  }

  predicate CopyOpConforms(j: Json, from: seq<string>, tokens: seq<string>) {
    var p, q := GetAt(j, from), Locate(j, from);
    if p.Ok? && q.Some? then CopyConforms(j, tokens)
    else (p.Ok? ==> Landing(j, tokens).None?) && (q.Some? ==> !StandardAdds(j, tokens))
  }

  lemma CopyAgrees(j: Json, op: PatchOp)
    requires op.Copy? && Split(op.path).Ok? && Split(op.from).Ok?
    ensures Agrees(ApplyOp(j, op), StandardOp(j, op)) <==> CopyOpConforms(j, Split(op.from).value, Split(op.path).value)
  {
    var from, tokens := Split(op.from).value, Split(op.path).value;
    var p, q := GetAt(j, from), Locate(j, from);
    LookupAgrees(j, from);
    if p.Ok? {
      CreatingReaches(j, tokens, Assign(p.value));
    }
    if q.Some? {
      AddsExactly(j, tokens, q.value);
    }
    if p.Ok? && q.Some? {
      AssignAgrees(j, tokens, p.value);
    }
  }

  // -------------------------------------------------------------------------------------
  // move
  // -------------------------------------------------------------------------------------

  /**
   Both take the value away, and add it alike to what is left, or the library does not add it below itself; or only one
   of both takes it away, and cannot add it.
   */
  predicate MoveConforms(j: Json, from: seq<string>, tokens: seq<string>) {
    from == [] ||
    var moved, q := GetAt(j, from).Ok? && RemoveAt(j, from).Ok?, Locate(j, from);
    if moved && q.Some? then
      var left := RemoveAt(j, from).value;
      if from < tokens then !LibraryAdds(left, tokens) else AddConforms(left, tokens)
    else
      && (moved ==> !LibraryAdds(RemoveAt(j, from).value, tokens))
      && (q.Some? ==> from < tokens || (StandardRemove(j, from).Some? && !StandardAdds(StandardRemove(j, from).value, tokens)))
  }

  lemma {:induction false} LocateLast(j: Json, tokens: seq<string>)
    requires tokens != []
    ensures Locate(j, tokens) == if Parent(j, tokens).None? then None else Child(Parent(j, tokens).value, Final(tokens))
    ensures GetAt(j, tokens).Ok? <==> GetAt(j, Front(tokens)).Ok? && ChildAt(GetAt(j, Front(tokens)).value, Final(tokens)).Ok?
    decreases tokens
  {
    if |tokens| == 1 {
      assert tokens == [Final(tokens)];
    } else {
      FrontStep(tokens);
      if Child(j, tokens[0]).Some? {
        LocateLast(Child(j, tokens[0]).value, tokens[1..]);
      }
      if ChildAt(j, tokens[0]).Ok? {
        LocateLast(ChildAt(j, tokens[0]).value, tokens[1..]);
      }
    }
  }

  /** What both take away leaves the same document. */
  lemma TakenAlike(j: Json, from: seq<string>)
    requires from != [] && Locate(j, from).Some?
    ensures StandardRemove(j, from).Some?
    ensures GetAt(j, from).Ok? && RemoveAt(j, from).Ok? ==> RemoveAt(j, from).value == StandardRemove(j, from).value
  {
    LocateLast(j, from);
    StandardRemoves(j, from);
    RemoveAgrees(j, from);
    LookupAgrees(j, Front(from));
    if GetAt(j, Front(from)).Ok? {
      CheckedReaches(j, Front(from), RemoveChild(Final(from)));
      RemoveHere(GetAt(j, Front(from)).value, Final(from));
    }
  }

  lemma MoveAgrees(j: Json, from: seq<string>, tokens: seq<string>)
    ensures Agrees(MoveAt(j, from, tokens), StandardMove(j, from, tokens)) <==> MoveConforms(j, from, tokens)
  {
    var p, q := GetAt(j, from), Locate(j, from);
    LookupAgrees(j, from);
    if from != [] {
      if q.Some? {
        TakenAlike(j, from);
        AddsExactly(StandardRemove(j, from).value, tokens, q.value);
      }
      if p.Ok? && RemoveAt(j, from).Ok? {
        AddsExactly(RemoveAt(j, from).value, tokens, p.value);
        AddAgrees(RemoveAt(j, from).value, tokens, p.value);
      }
    }
  }

  // -------------------------------------------------------------------------------------
  // All operations
  // -------------------------------------------------------------------------------------

  predicate OpConforms(doc: Json, op: PatchOp) {
    Split(op.path).Ok? ==>
      var tokens := Split(op.path).value;
      match op
      case Add(_, _) => AddConforms(doc, tokens)
      case Remove(_) => RemoveConforms(doc, tokens)
      case Replace(_, _) => !Misread(doc, tokens)
      case Move(from, _) => Split(from).Ok? ==> MoveConforms(doc, Split(from).value, tokens)
      case Copy(from, _) => Split(from).Ok? ==> CopyOpConforms(doc, Split(from).value, tokens)
      case Test(_, value) => TestConforms(doc, tokens, value)
  }

  /** The library does to a document what the standard says, and exactly when. */
  lemma OpAgrees(doc: Json, op: PatchOp)
    ensures Agrees(ApplyOp(doc, op), StandardOp(doc, op)) <==> OpConforms(doc, op)
  {
    if Split(op.path).Ok? {
      var tokens := Split(op.path).value;
      match op
      case Add(_, value) => AddAgrees(doc, tokens, value);
      case Remove(_) => RemoveAgrees(doc, tokens);
      case Replace(_, value) => ReplaceAgrees(doc, tokens, value);
      case Move(from, _) =>
        if Split(from).Ok? {
          MoveAgrees(doc, Split(from).value, tokens);
        }
      case Copy(from, _) =>
        if Split(from).Ok? {
          CopyAgrees(doc, op);
        }
      case Test(_, _) => TestAgrees(doc, op);
    }
  }

  // -------------------------------------------------------------------------------------
  // Whole patches
  // -------------------------------------------------------------------------------------

  /** All operations conform, each to the document that the ones before it leave, up to the first that fails. */
  predicate AllConform(doc: Json, ops: seq<PatchOp>)
    decreases |ops|
  {
    ops == [] ||
    (OpConforms(doc, ops[0]) && (StandardOp(doc, ops[0]).Some? ==> AllConform(StandardOp(doc, ops[0]).value, ops[1..])))
  }

  /** The patch that lists some operations. */
  function Written(ops: seq<PatchOp>): seq<Json> {
    if ops == [] then [] else [WriteOp(ops[0])] + Written(ops[1..])
  }

  /** The library reads an operation that it can apply, and fails on the others at once. */
  lemma WrittenApplied(doc: Json, op: PatchOp)
    ensures FirstAgrees(doc, op) <==> OpConforms(doc, op)
  {
    OpAgrees(doc, op);
    if Split(op.path).Ok? {
      ReadInvertsWrite(op);
    }
  }

  lemma PatchStep(doc: Json, ops: seq<PatchOp>)
    requires ops != []
    ensures Patch(doc, Arr(Written(ops))) ==
      (var r := ApplyElement(doc, WriteOp(ops[0])); if r.Err? then r else Patch(r.value, Arr(Written(ops[1..]))))
    ensures StandardPatch(doc, ops) ==
      (var r := StandardOp(doc, ops[0]); if r.None? then r else StandardPatch(r.value, ops[1..]))
  {
    assert Written(ops)[0] == WriteOp(ops[0]) && Written(ops)[1..] == Written(ops[1..]);
  }

  /** Such a patch does to a document what the standard says. */
  lemma {:induction false} PatchAgrees(doc: Json, ops: seq<PatchOp>)
    requires AllConform(doc, ops)
    ensures Agrees(Patch(doc, Arr(Written(ops))), StandardPatch(doc, ops))
    decreases |ops|
  {
    if ops != [] {
      PatchStep(doc, ops);
      WrittenApplied(doc, ops[0]);
      if StandardOp(doc, ops[0]).Some? {
        PatchAgrees(StandardOp(doc, ops[0]).value, ops[1..]);
      }
    }
  }

  /** The first n operations do the same in the library and in the standard. */
  predicate AgreesUpTo(doc: Json, ops: seq<PatchOp>, n: nat)
    requires n <= |ops|
  {
    Agrees(Patch(doc, Arr(Written(ops[..n]))), StandardPatch(doc, ops[..n]))
  }

  ghost predicate StepsAgree(doc: Json, ops: seq<PatchOp>) {
    forall n :: 0 <= n <= |ops| ==> AgreesUpTo(doc, ops, n)
  }

  lemma PrefixStep(doc: Json, ops: seq<PatchOp>, n: nat)
    requires 0 < n <= |ops|
    ensures ops[..n] != [] && ops[..n][0] == ops[0] && ops[..n][1..] == ops[1..][..n - 1]
  {
  }

  lemma {:induction false} ConformPrefix(doc: Json, ops: seq<PatchOp>, n: nat)
    requires AllConform(doc, ops) && n <= |ops|
    ensures AllConform(doc, ops[..n])
    decreases |ops|
  {
    if n > 0 {
      PrefixStep(doc, ops, n);
      if StandardOp(doc, ops[0]).Some? {
        ConformPrefix(StandardOp(doc, ops[0]).value, ops[1..], n - 1);
      }
    }
  }

  /** The first element of a patch and the first operation of the standard do the same. */
  predicate FirstAgrees(doc: Json, op: PatchOp) {
    Agrees(ApplyElement(doc, WriteOp(op)), StandardOp(doc, op))
  }

  lemma NothingPatched(doc: Json)
    ensures Patch(doc, Arr(Written([]))) == Ok(doc) && StandardPatch(doc, []) == Some(doc)
  {
  }

  lemma AgreesFirst(doc: Json, ops: seq<PatchOp>)
    requires ops != []
    ensures AgreesUpTo(doc, ops, 1) <==> FirstAgrees(doc, ops[0])
  {
    PrefixStep(doc, ops, 1);
    PatchStep(doc, ops[..1]);
    assert ops[..1][1..] == [];
    if StandardOp(doc, ops[0]).Some? {
      NothingPatched(StandardOp(doc, ops[0]).value);
    }
    if ApplyElement(doc, WriteOp(ops[0])).Ok? {
      NothingPatched(ApplyElement(doc, WriteOp(ops[0])).value);
    }
  }

  /** After a first operation that agrees the rest has to agree. */
  lemma AgreesBehind(doc: Json, ops: seq<PatchOp>, n: nat)
    requires 0 < n <= |ops| && FirstAgrees(doc, ops[0]) && StandardOp(doc, ops[0]).Some?
    ensures AgreesUpTo(doc, ops, n) <==> AgreesUpTo(StandardOp(doc, ops[0]).value, ops[1..], n - 1)
  {
    PrefixStep(doc, ops, n);
    PatchStep(doc, ops[..n]);
  }

  /** The library and the standard stay together, operation by operation, exactly when all operations conform. */
  lemma {:induction false} PatchesAgree(doc: Json, ops: seq<PatchOp>)
    ensures StepsAgree(doc, ops) <==> AllConform(doc, ops)
    decreases |ops|
  {
    if AllConform(doc, ops) {
      forall n | 0 <= n <= |ops| ensures AgreesUpTo(doc, ops, n) {
        ConformPrefix(doc, ops, n);
        PatchAgrees(doc, ops[..n]);
      }
    }
    if ops != [] && StepsAgree(doc, ops) {
      AgreesFirst(doc, ops);
      WrittenApplied(doc, ops[0]);
      var r := StandardOp(doc, ops[0]);
      if r.Some? {
        forall n | 0 <= n <= |ops[1..]| ensures AgreesUpTo(r.value, ops[1..], n) {
          AgreesBehind(doc, ops, n + 1);
        }
        PatchesAgree(r.value, ops[1..]);
      }
    }
  }

  // -------------------------------------------------------------------------------------
  // Where the library differs
  // -------------------------------------------------------------------------------------

  /** A pointer of one token without characters to escape. */
  lemma OneToken(token: string)
    requires EscapeChars(token) == token
    ensures Split("/" + token) == Ok([token])
  {
    EscapeIsCharwise(token);
    SplitInvertsText([token]);
    assert Text([token]) == "/" + token;
  }

  lemma ElementRead(a: seq<Json>, token: string, i: nat)
    requires token == Decimal(i) && i < |a| && i <= INT_MAX
    ensures GetAt(Arr(a), [token]) == Ok(a[i]) && Locate(Arr(a), [token]) == Some(a[i])
  {
    NumberOfDecimal(i);
    IndexOfDecimal(i);
    assert [token][1..] == [];
  }

  lemma ElementCopied(a: seq<Json>, token: string, i: nat, v: Json)
    requires token == Decimal(i) && i < |a| && i <= INT_MAX
    ensures ModifyCreating(Arr(a), [token], Assign(v)) == Ok(Arr(a[i := v]))
    ensures StandardAdd(Arr(a), [token], v) == Some(Arr(a[..i] + [v] + a[i..]))
  {
    NumberOfDecimal(i);
    IndexOfDecimal(i);
    assert [token][1..] == [];
  }

  lemma CopyGives(doc: Json, op: PatchOp, from: seq<string>, to: seq<string>, v: Json, w: Json, standard: Json)
    requires op.Copy? && Split(op.from) == Ok(from) && Split(op.path) == Ok(to)
    requires GetAt(doc, from) == Ok(v) && Locate(doc, from) == Some(v)
    requires ModifyCreating(doc, to, Assign(v)) == Ok(w) && StandardAdd(doc, to, v) == Some(standard)
    ensures ApplyOp(doc, op) == Ok(w) && StandardOp(doc, op) == Some(standard)
  {
  }

  lemma CopyApplied(a: seq<Json>, op: PatchOp, from: string, i: nat, to: string, k: nat)
    requires op.Copy? && Split(op.from) == Ok([from]) && Split(op.path) == Ok([to])
    requires from == Decimal(i) && to == Decimal(k) && i < |a| && k < |a| && i <= INT_MAX && k <= INT_MAX
    ensures ApplyOp(Arr(a), op) == Ok(Arr(a[k := a[i]]))
    ensures StandardOp(Arr(a), op) == Some(Arr(a[..k] + [a[i]] + a[k..]))
  {
    var w, standard := Arr(a[k := a[i]]), Arr(a[..k] + [a[i]] + a[k..]);
    ElementRead(a, from, i);
    ElementCopied(a, to, k, a[i]);
    CopyGives(Arr(a), op, [from], [to], a[i], w, standard);
  }

  /** A copy into an array overwrites an element. */
  lemma CopyOverwrites()
    ensures var doc, op := Arr([Bool(true), Bool(false)]), Copy("/0", "/1");
      && ApplyOp(doc, op) == Ok(Arr([Bool(true), Bool(true)]))
      && StandardOp(doc, op) == Some(Arr([Bool(true), Bool(true), Bool(false)]))
  {
    PathsOfElements();
    var a := [Bool(true), Bool(false)];
    CopyApplied(a, Copy("/0", "/1"), "0", 0, "1", 1);
    assert a[1 := a[0]] == [Bool(true), Bool(true)];
    assert a[..1] + [a[0]] + a[1..] == [Bool(true), Bool(true), Bool(false)];
  }

  lemma PathsOfElements()
    ensures Split("/0") == Ok(["0"]) && Split("/1") == Ok(["1"]) && Decimal(0) == "0" && Decimal(1) == "1"
  {
    OneToken("0");
    OneToken("1");
    assert "/" + "0" == "/0" && "/" + "1" == "/1";
  }

  lemma AddBelowApplied(doc: Json, op: PatchOp, key: string, last: string)
    requires op.Add? && Split(op.path) == Ok([key, last])
    requires doc.Obj? && key in doc.m && IsPrimitive(doc.m[key]) && doc.m[key] != Null
    ensures ApplyOp(doc, op) == Ok(doc) && StandardOp(doc, op) == None
  {
    var e := AddChild(last, op.value);
    assert [key, last][..1] == [key] && [key][1..] == [];
    assert doc.m[key := doc.m[key]] == doc.m;
    assert ModifyCreating(doc, [key], e) == Ok(doc);
    assert GetAt(doc, [key]).Ok?;
    assert Locate(doc, [key]) == Some(doc.m[key]);
  }

  /** An addition below a number is dropped without an error. */
  lemma AddBelowNumber(v: Json)
    ensures var doc, op := Obj(map["a" := UInt(5)]), Add("/a/b", v);
      ApplyOp(doc, op) == Ok(doc) && StandardOp(doc, op) == None
  {
    EscapeIsCharwise("a");
    EscapeIsCharwise("b");
    SplitInvertsText(["a", "b"]);
    assert Text(["b"]) == "/b" && ["a", "b"][1..] == ["b"];
    assert Text(["a", "b"]) == "/a/b";
    AddBelowApplied(Obj(map["a" := UInt(5)]), Add("/a/b", v), "a", "b");
  }

  lemma RemoveApplied(a: seq<Json>, op: PatchOp, token: string, i: nat)
    requires op.Remove? && Split(op.path) == Ok([token]) && Stoi(token) == Ok(i) && i < |a| && !IsIndex(token)
    ensures ApplyOp(Arr(a), op) == Ok(Arr(a[..i] + a[i + 1..])) && StandardOp(Arr(a), op) == None
  {
    assert Front([token]) == [];
  }

  lemma PathOfZeroOne()
    ensures Split("/01") == Ok(["01"])
  {
    OneToken("01");
    assert "/" + "01" == "/01";
  }

  /** The last token of a removal may have leading zeros. */
  lemma LeadingZeroRemoves()
    ensures var doc, op := Arr([Null, Null]), Remove("/01");
      ApplyOp(doc, op) == Ok(Arr([Null])) && StandardOp(doc, op) == None
  {
    PathOfZeroOne();
    StoiOfZeroOne();
    RemoveApplied([Null, Null], Remove("/01"), "01", 1);
    assert [Null, Null][..1] + [Null, Null][2..] == [Null];
  }

  lemma StoiOfZeroOne()
    ensures Stoi("01") == Ok(1) && !IsIndex("01")
  {
    DigitRunOfDigits("01", []);
    assert "01" + [] == "01" && "01"[..1] == "0" && "0"[..0] == [];
  }

  lemma ReplaceApplied(a: seq<Json>, op: PatchOp, token: string)
    requires op.Replace? && Split(op.path) == Ok([token]) && Strays(Arr(a), token)
    ensures ApplyOp(Arr(a), op) == Ok(Arr(a[Index(token).value := op.value])) && StandardOp(Arr(a), op) == None
  {
    assert [token][1..] == [];
    TokenRead(Arr(a), token);
    CheckedReaches(Arr(a), [token], Assign(op.value));
    ReplaceReaches(Arr(a), [token], op.value);
  }

  /** std::stoi reads an index with something behind it. */
  lemma StrayIndexReplaces(v: Json)
    ensures var doc, op := Arr([Null, Null]), Replace("/1x", v);
      ApplyOp(doc, op) == Ok(Arr([Null, v])) && StandardOp(doc, op) == None
  {
    OneToken("1x");
    assert "/" + "1x" == "/1x";
    StoiOfOneX();
    ReplaceApplied([Null, Null], Replace("/1x", v), "1x");
    assert [Null, Null][1 := v] == [Null, v];
  }

  lemma StoiOfOneX()
    ensures Index("1x") == Ok(1) && !IsIndex("1x")
  {
    DigitRunOfDigits("1", "x");
    assert "1" + "x" == "1x" && "1"[..0] == [] && !IsDigit("1x"[1]);
  }

  lemma TestApplied(doc: Json, v: Json)
    requires Eq(doc, v) && Clash(doc, v)
    ensures ApplyOp(doc, Test("", v)) == Ok(doc) && StandardOp(doc, Test("", v)) == None
  {
    EqualUnlessClash(doc, v);
  }

  /** A test takes the largest unsigned number for -1. */
  lemma SignIsLost()
    ensures var doc, op := UInt(0xFFFF_FFFF_FFFF_FFFF), Test("", Int(-1));
      ApplyOp(doc, op) == Ok(doc) && StandardOp(doc, op) == None
  {
    TestApplied(UInt(0xFFFF_FFFF_FFFF_FFFF), Int(-1));
  }

  /** A test takes 2^53 + 1 for the double 2^53. */
  lemma RoundedIsEqual()
    ensures var doc, op := UInt(0x20_0000_0000_0001), Test("", Float(0x4340_0000_0000_0000));
      ApplyOp(doc, op) == Ok(doc) && StandardOp(doc, op) == None
  {
    OddAbove(0x20_0000_0000_0001);
    TestApplied(UInt(0x20_0000_0000_0001), Float(0x4340_0000_0000_0000));
  }

  lemma OddAbove(n: nat)
    requires n == 2 * TWO_52 + 1
    ensures !Exact(n) && DoubleOf(n) == 0x4340_0000_0000_0000
  {
    HighBitOf(n);
    assert Pow2(1) == 2;
    assert n / 2 == TWO_52 && n % 2 == 1;
  }

  lemma HighBitOf(n: nat)
    requires 2 * TWO_52 < n < 4 * TWO_52
    ensures HighBit(n) == 53
  {
    FormatPowers();
    assert Pow2(54) == 2 * Pow2(53);
    HighBitBelow(n, 54);
    HighBitBounds(n);
    if HighBit(n) < 53 {
      Pow2Grows(HighBit(n) + 1, 53);
    }
  }
}
