/**
 What a diff consists of.
 */
module DiffContents {
  import opened Json
  import opened JsonResult
  import opened Keys
  import opened Numerals
  import opened JsonPointer
  import opened JsonNavigate
  import opened JsonPatch
  import opened JsonDiff
  import opened Sequences
  import opened Wrappers

  // -------------------------------------------------------------------------------------
  // The places where two values differ
  // -------------------------------------------------------------------------------------

  predicate SameContainer(s: Json, t: Json) {
    (s.Arr? && t.Arr?) || (s.Obj? && t.Obj?)
  }

  predicate Has(j: Json, token: string) {
    Child(j, token).Some?
  }

  /** What stands at a path in both values, arrays on arrays and objects on objects all the way. */
  function Common(s: Json, t: Json, p: seq<string>): Option<(Json, Json)>
    decreases p
  {
    if p == [] then Some((s, t))
    else if !SameContainer(s, t) || !Has(s, p[0]) || !Has(t, p[0]) then None
    else Common(Child(s, p[0]).value, Child(t, p[0]).value, p[1..])
  }

  /** Two arrays or two objects at the parent of a path, as far as both values go together. */
  function Parents(s: Json, t: Json, p: seq<string>): Option<(Json, Json)>
    requires p != []
  {
    var q := Common(s, t, p[..|p| - 1]);
    if q.Some? && SameContainer(q.value.0, q.value.1) then q else None
  }

  /**
   A replacement where the values differ and cannot be compared part by part, with the value of the target; a removal of
   what only the source has, an addition of what only the target has.
   */
  predicate Wanted(s: Json, t: Json, c: Change) {
    match c
    case ReplaceAt(p, v) =>
      var q := Common(s, t, p);
      q.Some? && !Eq(q.value.0, q.value.1) && !SameContainer(q.value.0, q.value.1) && v == q.value.1
    case RemoveFrom(p) =>
      p != [] && var q := Parents(s, t, p);
      q.Some? && Has(q.value.0, p[|p| - 1]) && !Has(q.value.1, p[|p| - 1])
    case AddTo(p, v) =>
      p != [] && var q := Parents(s, t, p);
      q.Some? && !Has(q.value.0, p[|p| - 1]) && Child(q.value.1, p[|p| - 1]) == Some(v)
  }

  // -------------------------------------------------------------------------------------
  // One step down
  // -------------------------------------------------------------------------------------

  /** The change seen from the child that its first token names. */
  function Below(c: Change): Change
    requires c.tokens != []
  {
    match c
    case AddTo(p, v) => AddTo(p[1..], v)
    case RemoveFrom(p) => RemoveFrom(p[1..])
    case ReplaceAt(p, v) => ReplaceAt(p[1..], v)
  }

  lemma UnderBelow(token: string, c: Change)
    ensures Under(token, c).tokens == [token] + c.tokens && Below(Under(token, c)) == c
    ensures c.tokens != [] && c.tokens[0] == token ==> Under(token, Below(c)) == c
  {
    assert ([token] + c.tokens)[1..] == c.tokens;
    if c.tokens != [] && c.tokens[0] == token {
      assert [token] + c.tokens[1..] == c.tokens;
    }
  }

  lemma CommonStep(s: Json, t: Json, p: seq<string>)
    requires |p| > 1
    ensures p[..|p| - 1][0] == p[0] && p[..|p| - 1][1..] == p[1..][..|p| - 2]
    ensures p[1..][|p| - 2] == p[|p| - 1]
  {
  }

  /** Below a child that both values have. */
  lemma WantedBelow(s: Json, t: Json, c: Change)
    requires SameContainer(s, t) && c.tokens != [] && Has(s, c.tokens[0]) && Has(t, c.tokens[0])
    ensures Wanted(s, t, c) <==> Wanted(Child(s, c.tokens[0]).value, Child(t, c.tokens[0]).value, Below(c))
  {
    var p := c.tokens;
    if |p| > 1 {
      CommonStep(s, t, p);
    } else {
      assert p[..|p| - 1] == [];
    }
  }

  /** At a child that one of them lacks. */
  lemma WantedHere(s: Json, t: Json, c: Change)
    requires SameContainer(s, t) && c.tokens != [] && !(Has(s, c.tokens[0]) && Has(t, c.tokens[0]))
    ensures Wanted(s, t, c) <==>
      || (Has(s, c.tokens[0]) && c == RemoveFrom([c.tokens[0]]))
      || (Has(t, c.tokens[0]) && c == AddTo([c.tokens[0]], Child(t, c.tokens[0]).value))
  {
    var p := c.tokens;
    if |p| > 1 {
      CommonStep(s, t, p);
    } else {
      assert p[..|p| - 1] == [] && p == [p[0]];
    }
  }

  lemma {:induction false} CommonOfEqual(s: Json, t: Json, p: seq<string>)
    requires Eq(s, t) && Common(s, t, p).Some?
    ensures Eq(Common(s, t, p).value.0, Common(s, t, p).value.1)
    decreases p
  {
    if p != [] {
      CommonOfEqual(Child(s, p[0]).value, Child(t, p[0]).value, p[1..]);
    }
  }

  lemma EqualHave(s: Json, t: Json, token: string)
    requires Eq(s, t) && SameContainer(s, t)
    ensures Has(s, token) <==> Has(t, token)
  {
  }

  lemma NothingWanted(s: Json, t: Json, c: Change)
    requires Eq(s, t)
    ensures !Wanted(s, t, c)
  {
    var p := c.tokens;
    if c.ReplaceAt? {
      if Common(s, t, p).Some? {
        CommonOfEqual(s, t, p);
      }
    } else if p != [] && Parents(s, t, p).Some? {
      CommonOfEqual(s, t, p[..|p| - 1]);
      EqualHave(Parents(s, t, p).value.0, Parents(s, t, p).value.1, p[|p| - 1]);
    }
  }

  // -------------------------------------------------------------------------------------
  // What is in the lists
  // -------------------------------------------------------------------------------------

  lemma {:induction false} InUnderAll(token: string, cs: seq<Change>, c: Change)
    ensures c in UnderAll(token, cs) <==> c.tokens != [] && c.tokens[0] == token && Below(c) in cs
  {
    if cs != [] {
      InUnderAll(token, cs[1..], c);
      UnderBelow(token, cs[0]);
      UnderBelow(token, c);
      assert cs == [cs[0]] + cs[1..];
    }
  }

  lemma IndexIs(token: string, i: nat)
    ensures token == Decimal(i) <==> IsIndex(token) && NumberOf(token) == i
  {
    NumberOfDecimal(i);
  }

  lemma {:induction false} InElementChanges(s: Json, t: Json, i: nat, c: Change)
    requires s.Arr? && t.Arr?
    ensures c in ElementChanges(s, t, i) <==>
      && c.tokens != [] && IsIndex(c.tokens[0]) && i <= NumberOf(c.tokens[0]) < |s.a| && NumberOf(c.tokens[0]) < |t.a|
      && Below(c) in Changes(s.a[NumberOf(c.tokens[0])], t.a[NumberOf(c.tokens[0])])
    decreases |s.a| - i
  {
    if i < |s.a| && i < |t.a| {
      InElementChanges(s, t, i + 1, c);
      InUnderAll(Decimal(i), Changes(s.a[i], t.a[i]), c);
      if c.tokens != [] {
        IndexIs(c.tokens[0], i);
      }
    }
  }

  lemma {:induction false} InRemovals(n: nat, keep: nat, c: Change)
    ensures c in Removals(n, keep) <==>
      c.RemoveFrom? && |c.tokens| == 1 && IsIndex(c.tokens[0]) && keep <= NumberOf(c.tokens[0]) < n
  {
    if n > keep {
      InRemovals(n - 1, keep, c);
      if |c.tokens| == 1 {
        IndexIs(c.tokens[0], n - 1);
        assert c.tokens == [c.tokens[0]];
      }
      IndexIs(Decimal(n - 1), n - 1);
    }
  }

  lemma {:induction false} InAdditions(b: seq<Json>, i: nat, c: Change)
    ensures c in Additions(b, i) <==>
      && c.AddTo? && |c.tokens| == 1 && IsIndex(c.tokens[0]) && i <= NumberOf(c.tokens[0]) < |b|
      && c.value == b[NumberOf(c.tokens[0])]
    decreases |b| - i
  {
    if i < |b| {
      InAdditions(b, i + 1, c);
      if |c.tokens| == 1 {
        IndexIs(c.tokens[0], i);
        assert c.tokens == [c.tokens[0]];
      }
      IndexIs(Decimal(i), i);
    }
  }

  lemma {:induction false} InMemberChanges(s: Json, t: Json, keys: seq<string>, c: Change)
    requires s.Obj? && t.Obj? && forall k :: k in keys ==> k in s.m
    ensures c in MemberChanges(s, t, keys) <==>
      && c.tokens != [] && c.tokens[0] in keys
      && if c.tokens[0] in t.m then Below(c) in Changes(s.m[c.tokens[0]], t.m[c.tokens[0]]) else c == RemoveFrom([c.tokens[0]])
    decreases |keys|
  {
    if keys != [] {
      InMemberChanges(s, t, keys[1..], c);
      if keys[0] in t.m {
        InUnderAll(keys[0], Changes(s.m[keys[0]], t.m[keys[0]]), c);
      }
      assert keys == [keys[0]] + keys[1..];
    }
  }

  lemma {:induction false} InNewMembers(m: map<string, Json>, n: map<string, Json>, keys: seq<string>, c: Change)
    requires forall k :: k in keys ==> k in n
    ensures c in NewMembers(m, n, keys) <==>
      c.tokens != [] && c.tokens[0] in keys && c.tokens[0] !in m && c == AddTo([c.tokens[0]], n[c.tokens[0]])
    decreases |keys|
  {
    if keys != [] {
      InNewMembers(m, n, keys[1..], c);
      assert keys == [keys[0]] + keys[1..];
    }
  }

  /** Everything in the diff of two values is wanted, and everything wanted is in it. */
  lemma {:induction false} InChanges(s: Json, t: Json, c: Change)
    ensures c in Changes(s, t) <==> Wanted(s, t, c)
    decreases s, 1
  {
    if Eq(s, t) {
      NothingWanted(s, t, c);
    } else if !SameContainer(s, t) {
      WholeOnly(s, t, c);
    } else if c.tokens != [] {
      StepChanges(s, t, c);
    } else {
      RootUnchanged(s, t, c);
    }
  }

  lemma WholeOnly(s: Json, t: Json, c: Change)
    requires !Eq(s, t) && !SameContainer(s, t)
    ensures c in Changes(s, t) <==> Wanted(s, t, c)
  {
    var p := c.tokens;
    if p != [] {
      assert Common(s, t, p).None?;
      assert |p| > 1 ==> Common(s, t, p[..|p| - 1]).None?;
      assert |p| == 1 ==> p[..|p| - 1] == [];
    }
  }

  /** Two containers are not replaced as a whole. */
  lemma RootUnchanged(s: Json, t: Json, c: Change)
    requires !Eq(s, t) && SameContainer(s, t) && c.tokens == []
    ensures c !in Changes(s, t) && !Wanted(s, t, c)
  {
    if s.Arr? {
      InElementChanges(s, t, 0, c);
      InRemovals(|s.a|, |t.a|, c);
      InAdditions(t.a, |s.a|, c);
    } else {
      InMemberChanges(s, t, Sorted(s.m.Keys), c);
      InNewMembers(s.m, t.m, Sorted(t.m.Keys), c);
    }
  }

  /** What the changes of two containers have to say about one child. */
  predicate InStep(s: Json, t: Json, c: Change)
    requires SameContainer(s, t) && c.tokens != []
  {
    var k := c.tokens[0];
    if Has(s, k) && Has(t, k) then Below(c) in Changes(Child(s, k).value, Child(t, k).value)
    else (Has(s, k) && c == RemoveFrom([k])) || (Has(t, k) && c == AddTo([k], Child(t, k).value))
  }

  lemma ArrayStep(s: Json, t: Json, c: Change)
    requires !Eq(s, t) && s.Arr? && t.Arr? && c.tokens != []
    ensures c in ElementChanges(s, t, 0) || c in Removals(|s.a|, |t.a|) || c in Additions(t.a, |s.a|) <==> InStep(s, t, c)
  {
    InElementChanges(s, t, 0, c);
    InRemovals(|s.a|, |t.a|, c);
    InAdditions(t.a, |s.a|, c);
    if |c.tokens| == 1 {
      assert c.tokens == [c.tokens[0]];
    }
  }

  lemma ObjectStep(s: Json, t: Json, keys: seq<string>, others: seq<string>, c: Change)
    requires s.Obj? && t.Obj? && c.tokens != []
    requires (forall k :: k in keys <==> k in s.m) && (forall k :: k in others <==> k in t.m)
    ensures c in MemberChanges(s, t, keys) || c in NewMembers(s.m, t.m, others) <==> InStep(s, t, c)
  {
    InMemberChanges(s, t, keys, c);
    InNewMembers(s.m, t.m, others, c);
  }

  lemma StepIn(s: Json, t: Json, c: Change)
    requires !Eq(s, t) && SameContainer(s, t) && c.tokens != []
    ensures c in Changes(s, t) <==> InStep(s, t, c)
  {
    if s.Arr? {
      ArrayStep(s, t, c);
    } else {
      ObjectStep(s, t, Sorted(s.m.Keys), Sorted(t.m.Keys), c);
    }
  }

  lemma {:induction false} StepChanges(s: Json, t: Json, c: Change)
    requires !Eq(s, t) && SameContainer(s, t) && c.tokens != []
    ensures c in Changes(s, t) <==> Wanted(s, t, c)
    decreases s, 0
  {
    var k := c.tokens[0];
    StepIn(s, t, c);
    if Has(s, k) && Has(t, k) {
      WantedBelow(s, t, c);
      InChanges(Child(s, k).value, Child(t, k).value, Below(c));
    } else {
      WantedHere(s, t, c);
    }
  }

  // -------------------------------------------------------------------------------------
  // No place twice
  // -------------------------------------------------------------------------------------

  ghost predicate PathsDiffer(cs: seq<Change>) {
    forall i, j :: 0 <= i < j < |cs| ==> cs[i].tokens != cs[j].tokens
  }

  lemma PathsJoined(a: seq<Change>, b: seq<Change>)
    requires PathsDiffer(a) && PathsDiffer(b) && forall x, y :: x in a && y in b ==> x.tokens != y.tokens
    ensures PathsDiffer(a + b)
  {
    forall i, j | 0 <= i < j < |a + b| ensures (a + b)[i].tokens != (a + b)[j].tokens {
      if i < |a| && j >= |a| {
        assert (a + b)[i] in a && (a + b)[j] in b;
      }
    }
  }

  lemma {:induction false} UnderAllIndexed(token: string, cs: seq<Change>)
    ensures |UnderAll(token, cs)| == |cs| && forall i :: 0 <= i < |cs| ==> UnderAll(token, cs)[i] == Under(token, cs[i])
  {
    if cs != [] {
      UnderAllIndexed(token, cs[1..]);
    }
  }

  lemma UnderAllDiffer(token: string, cs: seq<Change>)
    requires PathsDiffer(cs)
    ensures PathsDiffer(UnderAll(token, cs))
  {
    UnderAllIndexed(token, cs);
    forall i, j | 0 <= i < j < |cs| ensures Under(token, cs[i]).tokens != Under(token, cs[j]).tokens {
      UnderBelow(token, cs[i]);
      UnderBelow(token, cs[j]);
      assert ([token] + cs[i].tokens)[1..] == cs[i].tokens && ([token] + cs[j].tokens)[1..] == cs[j].tokens;
    }
  }

  lemma {:induction false} ElementPathsDiffer(s: Json, t: Json, i: nat)
    requires s.Arr? && t.Arr?
    ensures PathsDiffer(ElementChanges(s, t, i))
    decreases s, 0, |s.a| - i
  {
    if i < |s.a| && i < |t.a| {
      var here := UnderAll(Decimal(i), Changes(s.a[i], t.a[i]));
      ChangePathsDiffer(s.a[i], t.a[i]);
      UnderAllDiffer(Decimal(i), Changes(s.a[i], t.a[i]));
      ElementPathsDiffer(s, t, i + 1);
      forall x, y | x in here && y in ElementChanges(s, t, i + 1) ensures x.tokens != y.tokens {
        InUnderAll(Decimal(i), Changes(s.a[i], t.a[i]), x);
        InElementChanges(s, t, i + 1, y);
        IndexIs(x.tokens[0], i);
      }
      PathsJoined(here, ElementChanges(s, t, i + 1));
    }
  }

  lemma {:induction false} RemovalPathsDiffer(n: nat, keep: nat)
    ensures PathsDiffer(Removals(n, keep))
  {
    if n > keep {
      RemovalPathsDiffer(n - 1, keep);
      var c := RemoveFrom([Decimal(n - 1)]);
      forall y | y in Removals(n - 1, keep) ensures c.tokens != y.tokens {
        InRemovals(n - 1, keep, y);
        IndexIs(Decimal(n - 1), n - 1);
      }
      PathsJoined([c], Removals(n - 1, keep));
    }
  }

  lemma {:induction false} AdditionPathsDiffer(b: seq<Json>, i: nat)
    ensures PathsDiffer(Additions(b, i))
    decreases |b| - i
  {
    if i < |b| {
      AdditionPathsDiffer(b, i + 1);
      var c := AddTo([Decimal(i)], b[i]);
      forall y | y in Additions(b, i + 1) ensures c.tokens != y.tokens {
        InAdditions(b, i + 1, y);
        IndexIs(Decimal(i), i);
      }
      PathsJoined([c], Additions(b, i + 1));
    }
  }

  lemma {:induction false} MemberPathsDiffer(s: Json, t: Json, keys: seq<string>)
    requires s.Obj? && t.Obj? && (forall k :: k in keys ==> k in s.m) && Distinct(keys)
    ensures PathsDiffer(MemberChanges(s, t, keys))
    decreases s, 0, |keys|
  {
    if keys != [] {
      var k := keys[0];
      var here := if k in t.m then UnderAll(k, Changes(s.m[k], t.m[k])) else [RemoveFrom([k])];
      if k in t.m {
        ChangePathsDiffer(s.m[k], t.m[k]);
        UnderAllDiffer(k, Changes(s.m[k], t.m[k]));
      }
      MemberPathsDiffer(s, t, keys[1..]);
      forall x, y | x in here && y in MemberChanges(s, t, keys[1..]) ensures x.tokens != y.tokens {
        if k in t.m {
          InUnderAll(k, Changes(s.m[k], t.m[k]), x);
        }
        InMemberChanges(s, t, keys[1..], y);
      }
      PathsJoined(here, MemberChanges(s, t, keys[1..]));
    }
  }

  lemma {:induction false} NewMemberPathsDiffer(m: map<string, Json>, n: map<string, Json>, keys: seq<string>)
    requires (forall k :: k in keys ==> k in n) && Distinct(keys)
    ensures PathsDiffer(NewMembers(m, n, keys))
    decreases |keys|
  {
    if keys != [] {
      NewMemberPathsDiffer(m, n, keys[1..]);
      var here := if keys[0] in m then [] else [AddTo([keys[0]], n[keys[0]])];
      forall x, y | x in here && y in NewMembers(m, n, keys[1..]) ensures x.tokens != y.tokens {
        InNewMembers(m, n, keys[1..], y);
      }
      PathsJoined(here, NewMembers(m, n, keys[1..]));
    }
  }

  lemma ArrayPathsDiffer(s: Json, t: Json)
    requires s.Arr? && t.Arr? && PathsDiffer(ElementChanges(s, t, 0))
    ensures PathsDiffer(ElementChanges(s, t, 0) + Removals(|s.a|, |t.a|) + Additions(t.a, |s.a|))
  {
    var e, r, a := ElementChanges(s, t, 0), Removals(|s.a|, |t.a|), Additions(t.a, |s.a|);
    RemovalPathsDiffer(|s.a|, |t.a|);
    AdditionPathsDiffer(t.a, |s.a|);
    forall x, y | x in e && y in r ensures x.tokens != y.tokens {
      InElementChanges(s, t, 0, x);
      InRemovals(|s.a|, |t.a|, y);
    }
    PathsJoined(e, r);
    forall x, y | x in e + r && y in a ensures x.tokens != y.tokens {
      InElementChanges(s, t, 0, x);
      InRemovals(|s.a|, |t.a|, x);
      InAdditions(t.a, |s.a|, y);
    }
    PathsJoined(e + r, a);
  }

  lemma ObjectPathsDiffer(s: Json, t: Json)
    requires s.Obj? && t.Obj? && PathsDiffer(MemberChanges(s, t, Sorted(s.m.Keys)))
    ensures PathsDiffer(MemberChanges(s, t, Sorted(s.m.Keys)) + NewMembers(s.m, t.m, Sorted(t.m.Keys)))
  {
    SortedDistinct(t.m.Keys);
    NewMemberPathsDiffer(s.m, t.m, Sorted(t.m.Keys));
    forall x, y | x in MemberChanges(s, t, Sorted(s.m.Keys)) && y in NewMembers(s.m, t.m, Sorted(t.m.Keys))
      ensures x.tokens != y.tokens
    {
      InMemberChanges(s, t, Sorted(s.m.Keys), x);
      InNewMembers(s.m, t.m, Sorted(t.m.Keys), y);
    }
    PathsJoined(MemberChanges(s, t, Sorted(s.m.Keys)), NewMembers(s.m, t.m, Sorted(t.m.Keys)));
  }

  lemma {:induction false} ChangePathsDiffer(s: Json, t: Json)
    ensures PathsDiffer(Changes(s, t))
    decreases s, 1, 0
  {
    if Eq(s, t) || !SameContainer(s, t) {
    } else if s.Arr? {
      ElementPathsDiffer(s, t, 0);
      ArrayPathsDiffer(s, t);
    } else {
      SortedDistinct(s.m.Keys);
      MemberPathsDiffer(s, t, Sorted(s.m.Keys));
      ObjectPathsDiffer(s, t);
    }
  }

  // -------------------------------------------------------------------------------------
  // The operations of a diff
  // -------------------------------------------------------------------------------------

  /** An operation that a diff should have, its path read as a pointer. */
  predicate WantedOp(s: Json, t: Json, op: PatchOp) {
    Split(op.path).Ok? &&
    match op
    case Add(_, v) => Wanted(s, t, AddTo(Split(op.path).value, v))
    case Remove(_) => Wanted(s, t, RemoveFrom(Split(op.path).value))
    case Replace(_, v) => Wanted(s, t, ReplaceAt(Split(op.path).value, v))
    case _ => false
  }

  lemma {:induction false} AllAtIndexed(cs: seq<Change>)
    ensures |AllAt("", cs)| == |cs| && forall i :: 0 <= i < |cs| ==> AllAt("", cs)[i] == WriteOp(At("", cs[i]))
  {
    if cs != [] {
      AllAtIndexed(cs[1..]);
    }
  }

  /** The operation of a change has the change's tokens in its path, and no other operation is written like it. */
  lemma OpOfChange(c: Change, op: PatchOp)
    ensures Split(At("", c).path) == Ok(c.tokens)
    ensures WriteOp(op) == WriteOp(At("", c)) ==> op == At("", c)
  {
    assert "" + Text(c.tokens) == Text(c.tokens);
    SplitInvertsText(c.tokens);
    ReadInvertsWrite(At("", c));
    if WriteOp(op) == WriteOp(At("", c)) {
      assert WriteOp(op).m["path"] == Str(op.path);
      ReadInvertsWrite(op);
    }
  }

  lemma ChangeOfOp(op: PatchOp, c: Change)
    requires Split(op.path).Ok?
    requires match op
      case Add(_, v) => c == AddTo(Split(op.path).value, v)
      case Remove(_) => c == RemoveFrom(Split(op.path).value)
      case Replace(_, v) => c == ReplaceAt(Split(op.path).value, v)
      case _ => false
    ensures op == At("", c)
  {
    TextInvertsSplit(op.path);
    assert "" + Text(c.tokens) == Text(c.tokens);
  }

  /** The diff consists of exactly the operations that are wanted. */
  lemma DiffIsExact(s: Json, t: Json, op: PatchOp)
    ensures WriteOp(op) in Diff(s, t, "").a <==> WantedOp(s, t, op)
  {
    var cs := Changes(s, t);
    AllAtIndexed(cs);
    if WriteOp(op) in AllAt("", cs) {
      var i :| 0 <= i < |cs| && AllAt("", cs)[i] == WriteOp(op);
      OpOfChange(cs[i], op);
      InChanges(s, t, cs[i]);
      assert cs[i] in cs;
    }
    if WantedOp(s, t, op) {
      var tokens := Split(op.path).value;
      var c := match op
        case Add(_, v) => AddTo(tokens, v)
        case Remove(_) => RemoveFrom(tokens)
        case Replace(_, v) => ReplaceAt(tokens, v);
      ChangeOfOp(op, c);
      InChanges(s, t, c);
      var i :| 0 <= i < |cs| && cs[i] == c;
      assert AllAt("", cs)[i] == WriteOp(op);
    }
  }

  /** Every element of the diff is an operation, and no two of them have the same path. */
  lemma DiffPathsDiffer(s: Json, t: Json)
    ensures var ops := Diff(s, t, "").a;
      && (forall i :: 0 <= i < |ops| ==> ReadOp(ops[i]).Ok? && WriteOp(ReadOp(ops[i]).value) == ops[i])
      && (forall i, j :: 0 <= i < j < |ops| ==> ReadOp(ops[i]).value.path != ReadOp(ops[j]).value.path)
  {
    var cs := Changes(s, t);
    AllAtIndexed(cs);
    ChangePathsDiffer(s, t);
    forall i | 0 <= i < |cs| ensures ReadOp(AllAt("", cs)[i]) == Ok(At("", cs[i])) && Split(At("", cs[i]).path) == Ok(cs[i].tokens) {
      OpOfChange(cs[i], At("", cs[i]));
      ReadInvertsWrite(At("", cs[i]));
    }
  }

  /** diff, as it is called from outside: at the root of the document. */
  method DiffValues(source: Json, target: Json) returns (result: Json)
    ensures result.Arr? && forall op :: WriteOp(op) in result.a <==> WantedOp(source, target, op)
    ensures forall i :: 0 <= i < |result.a| ==> ReadOp(result.a[i]).Ok? && WriteOp(ReadOp(result.a[i]).value) == result.a[i]
    ensures forall i, j :: 0 <= i < j < |result.a| ==> ReadOp(result.a[i]).value.path != ReadOp(result.a[j]).value.path
  {
    result := DiffDocument(source, target, "");
    DiffPathsDiffer(source, target);
    forall op ensures WriteOp(op) in result.a <==> WantedOp(source, target, op) {
      DiffIsExact(source, target, op);
    }
  }
}
