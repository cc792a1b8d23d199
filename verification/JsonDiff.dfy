/**
 What a diff does to its source: patching the source with the diff gives the target.
 */
module JsonDiff {
  import opened Integers
  import opened Json
  import opened JsonResult
  import opened JsonPointer
  import opened Numerals
  import opened JsonNavigate
  import opened Keys
  import opened Sequences
  import opened JsonPatch

  // -------------------------------------------------------------------------------------
  // The patched value
  // -------------------------------------------------------------------------------------

  /** The target, except that parts equal to the source's keep the source's representation. */
  function Merge(s: Json, t: Json): Json
    decreases s
  {
    if Eq(s, t) then s
    else
      match (s, t)
      case (Arr(a), Arr(b)) => Arr(seq(|b|, k requires 0 <= k < |b| => if k < |a| then Merge(a[k], b[k]) else b[k]))
      case (Obj(m), Obj(n)) => Obj(map k | k in n :: if k in m then Merge(m[k], n[k]) else n[k])
      case _ => t
  }

  /** Every array index that the diff has to name is one that std::stoi can read. */
  predicate Fits(s: Json, t: Json)
    decreases s
  {
    Eq(s, t) ||
    match (s, t)
    case (Arr(a), Arr(b)) =>
      && (|a| != |b| ==> |a| <= INT_MAX + 1 && |b| <= INT_MAX + 1)
      && forall k :: 0 <= k < |a| && k < |b| && !Eq(a[k], b[k]) ==> k <= INT_MAX && Fits(a[k], b[k])
    case (Obj(m), Obj(n)) => forall k :: k in m && k in n ==> Fits(m[k], n[k])
    case _ => true
  }

  /** The result of some changes: an error unless ok, and else the value v. */
  predicate Yields(r: Result<Json>, ok: bool, v: Json) {
    (r.Ok? <==> ok) && (r.Ok? ==> r.value == v)
  }

  lemma YieldsConcat(doc: Json, xs: seq<Change>, ys: seq<Change>, top: bool, okX: bool, v: Json, okY: bool, w: Json)
    requires Yields(ApplyAll(doc, xs, top), okX, v) && Yields(ApplyAll(v, ys, top), okY, w)
    ensures Yields(ApplyAll(doc, xs + ys, top), okX && okY, w)
  {
    ApplyConcat(doc, xs, ys, top);
  }

  // -------------------------------------------------------------------------------------
  // Every change is proper, and unequal values differ by at least one change
  // -------------------------------------------------------------------------------------

  predicate AllProper(cs: seq<Change>) {
    forall c :: c in cs ==> Proper(c)
  }

  lemma {:induction false} UnderAllProper(token: string, cs: seq<Change>)
    ensures AllProper(UnderAll(token, cs)) && |UnderAll(token, cs)| == |cs|
  {
    if cs != [] {
      UnderAllProper(token, cs[1..]);
    }
  }

  lemma {:induction false} ElementChangesProper(s: Json, t: Json, i: nat, k: nat)
    requires s.Arr? && t.Arr?
    ensures AllProper(ElementChanges(s, t, i))
    ensures i <= k < |s.a| && k < |t.a| && Changes(s.a[k], t.a[k]) != [] ==> ElementChanges(s, t, i) != []
    decreases |s.a| - i
  {
    if i < |s.a| && i < |t.a| {
      UnderAllProper(Decimal(i), Changes(s.a[i], t.a[i]));
      ElementChangesProper(s, t, i + 1, k);
    }
  }

  lemma {:induction false} RemovalsProper(n: nat, keep: nat)
    ensures AllProper(Removals(n, keep)) && (n > keep ==> Removals(n, keep) != [])
  {
    if n > keep {
      RemovalsProper(n - 1, keep);
    }
  }

  lemma {:induction false} AdditionsProper(b: seq<Json>, i: nat)
    ensures AllProper(Additions(b, i)) && (i < |b| ==> Additions(b, i) != [])
    decreases |b| - i
  {
    if i < |b| {
      AdditionsProper(b, i + 1);
    }
  }

  lemma {:induction false} MemberChangesProper(s: Json, t: Json, keys: seq<string>, k: string)
    requires s.Obj? && t.Obj? && forall k :: k in keys ==> k in s.m
    ensures AllProper(MemberChanges(s, t, keys))
    ensures k in keys && (k in t.m ==> Changes(s.m[k], t.m[k]) != []) ==> MemberChanges(s, t, keys) != []
    decreases |keys|
  {
    if keys != [] {
      if keys[0] in t.m {
        UnderAllProper(keys[0], Changes(s.m[keys[0]], t.m[keys[0]]));
      }
      MemberChangesProper(s, t, keys[1..], k);
    }
  }

  lemma {:induction false} NewMembersProper(m: map<string, Json>, n: map<string, Json>, keys: seq<string>, k: string)
    requires forall k :: k in keys ==> k in n
    ensures AllProper(NewMembers(m, n, keys))
    ensures k in keys && k !in m ==> NewMembers(m, n, keys) != []
    decreases |keys|
  {
    if keys != [] {
      NewMembersProper(m, n, keys[1..], k);
    }
  }

  lemma UnequalElement(a: seq<Json>, b: seq<Json>) returns (k: nat)
    requires |a| == |b| && !Eq(Arr(a), Arr(b))
    ensures k < |a| && !Eq(a[k], b[k])
  {
    k :| 0 <= k < |a| && !Eq(a[k], b[k]);
  }

  lemma UnequalMember(m: map<string, Json>, n: map<string, Json>) returns (k: string)
    requires m.Keys == n.Keys && !Eq(Obj(m), Obj(n))
    ensures k in m && k in n && !Eq(m[k], n[k])
  {
    k :| k in m && !Eq(m[k], n[k]);
  }

  lemma ElementsProper(s: Json, t: Json)
    requires s.Arr? && t.Arr? && !Eq(s, t)
    ensures AllProper(Changes(s, t)) && (|s.a| != |t.a| ==> Changes(s, t) != [])
  {
    RemovalsProper(|s.a|, |t.a|);
    AdditionsProper(t.a, |s.a|);
    ElementChangesProper(s, t, 0, 0);
  }

  lemma MembersProper(s: Json, t: Json)
    requires s.Obj? && t.Obj? && !Eq(s, t)
    ensures AllProper(Changes(s, t)) && (s.m.Keys != t.m.Keys ==> Changes(s, t) != [])
  {
    MemberChangesProper(s, t, Sorted(s.m.Keys), "");
    NewMembersProper(s.m, t.m, Sorted(t.m.Keys), "");
    if k :| k in s.m && k !in t.m {
      MemberChangesProper(s, t, Sorted(s.m.Keys), k);
    } else if k :| k in t.m && k !in s.m {
      NewMembersProper(s.m, t.m, Sorted(t.m.Keys), k);
    }
  }

  /** A diff is empty exactly when the values are equal. */
  lemma {:induction false} ChangesProper(s: Json, t: Json)
    ensures AllProper(Changes(s, t)) && (Changes(s, t) == [] <==> Eq(s, t))
    decreases s
  {
    if Eq(s, t) {
    } else if s.Arr? && t.Arr? {
      ElementsProper(s, t);
      if |s.a| == |t.a| {
        var k := UnequalElement(s.a, t.a);
        ChangesProper(s.a[k], t.a[k]);
        ElementChangesProper(s, t, 0, k);
      }
    } else if s.Obj? && t.Obj? {
      MembersProper(s, t);
      if s.m.Keys == t.m.Keys {
        var k := UnequalMember(s.m, t.m);
        ChangesProper(s.m[k], t.m[k]);
        MemberChangesProper(s, t, Sorted(s.m.Keys), k);
      }
    }
  }

  // -------------------------------------------------------------------------------------
  // Arrays
  // -------------------------------------------------------------------------------------

  /** The array after the changes of its first elements. */
  function MergedUpTo(a: seq<Json>, b: seq<Json>, i: nat): seq<Json> {
    seq(|a|, k requires 0 <= k < |a| => if k < i && k < |b| then Merge(a[k], b[k]) else a[k])
  }

  predicate FitFrom(a: seq<Json>, b: seq<Json>, i: nat) {
    forall k :: i <= k < |a| && k < |b| && !Eq(a[k], b[k]) ==> k <= INT_MAX && Fits(a[k], b[k])
  }

  lemma FitNext(a: seq<Json>, b: seq<Json>, i: nat)
    requires i < |a| && i < |b|
    ensures FitFrom(a, b, i) <==> (Eq(a[i], b[i]) || (i <= INT_MAX && Fits(a[i], b[i]))) && FitFrom(a, b, i + 1)
  {
  }

  /** The changes of one element, given what they do to the element itself. */
  lemma ElementApplied(a: seq<Json>, b: seq<Json>, i: nat, top: bool)
    requires i < |a| && i < |b|
    requires Yields(ApplyAll(a[i], Changes(a[i], b[i]), false), Fits(a[i], b[i]), Merge(a[i], b[i]))
    ensures Yields(ApplyAll(Arr(MergedUpTo(a, b, i)), UnderAll(Decimal(i), Changes(a[i], b[i])), top),
                   Eq(a[i], b[i]) || (i <= INT_MAX && Fits(a[i], b[i])), Arr(MergedUpTo(a, b, i + 1)))
  {
    var doc, token, cs := Arr(MergedUpTo(a, b, i)), Decimal(i), Changes(a[i], b[i]);
    ChangesProper(a[i], b[i]);
    if cs == [] {
      assert MergedUpTo(a, b, i + 1) == MergedUpTo(a, b, i);
    } else if i <= INT_MAX {
      ElementAt(doc.a, i);
      ApplyUnderAll(doc, token, cs, top);
      assert doc.a[i := Merge(a[i], b[i])] == MergedUpTo(a, b, i + 1);
    } else {
      ApplyUnderUnreadable(doc.a, i, cs[0], top);
      assert UnderAll(token, cs)[0] == Under(token, cs[0]);
    }
  }

  /** The changes of the elements from i on, given those of element i and those of the later ones. */
  lemma ElementStep(s: Json, t: Json, i: nat, top: bool, all: Json)
    requires s.Arr? && t.Arr? && i < |s.a| && i < |t.a|
    requires Yields(ApplyAll(s.a[i], Changes(s.a[i], t.a[i]), false), Fits(s.a[i], t.a[i]), Merge(s.a[i], t.a[i]))
    requires Yields(ApplyAll(Arr(MergedUpTo(s.a, t.a, i + 1)), ElementChanges(s, t, i + 1), top), FitFrom(s.a, t.a, i + 1), all)
    ensures Yields(ApplyAll(Arr(MergedUpTo(s.a, t.a, i)), ElementChanges(s, t, i), top), FitFrom(s.a, t.a, i), all)
  {
    var a, b := s.a, t.a;
    ElementApplied(a, b, i, top);
    FitNext(a, b, i);
    YieldsConcat(Arr(MergedUpTo(a, b, i)), UnderAll(Decimal(i), Changes(a[i], b[i])), ElementChanges(s, t, i + 1), top,
                 Eq(a[i], b[i]) || (i <= INT_MAX && Fits(a[i], b[i])), Arr(MergedUpTo(a, b, i + 1)),
                 FitFrom(a, b, i + 1), all);
  }

  lemma {:induction false} ElementsApplied(s: Json, t: Json, i: nat, top: bool)
    requires s.Arr? && t.Arr? && i <= |s.a|
    ensures Yields(ApplyAll(Arr(MergedUpTo(s.a, t.a, i)), ElementChanges(s, t, i), top),
                   FitFrom(s.a, t.a, i), Arr(MergedUpTo(s.a, t.a, |s.a|)))
    decreases s, 0, |s.a| - i
  {
    if i < |s.a| && i < |t.a| {
      ChangesApplied(s.a[i], t.a[i], false);
      ElementsApplied(s, t, i + 1, top);
      ElementStep(s, t, i, top, Arr(MergedUpTo(s.a, t.a, |s.a|)));
    } else {
      assert MergedUpTo(s.a, t.a, i) == MergedUpTo(s.a, t.a, |s.a|);
    }
  }

  /** A change of a child edits its parent. */
  lemma ApplyToChild(doc: Json, token: string, v: Json, top: bool)
    ensures Apply(doc, RemoveFrom([token]), top) == ApplyEdit(doc, RemoveChild(token))
    ensures Apply(doc, AddTo([token], v), top) == ApplyEdit(doc, AddChild(token, v))
  {
    assert [token][..0] == [];
  }

  lemma LastRemoved(a: seq<Json>, top: bool)
    requires a != []
    ensures Apply(Arr(a), RemoveFrom([Decimal(|a| - 1)]), top) ==
      if |a| - 1 <= INT_MAX then Ok(Arr(a[..|a| - 1])) else Err(NumberOutOfRange)
  {
    ApplyToChild(Arr(a), Decimal(|a| - 1), Null, top);
    RemoveLastElement(a);
  }

  lemma OneAppended(a: seq<Json>, v: Json, top: bool)
    ensures Apply(Arr(a), AddTo([Decimal(|a|)], v), top) ==
      if |a| <= INT_MAX then Ok(Arr(a + [v])) else Err(NumberOutOfRange)
  {
    ApplyToChild(Arr(a), Decimal(|a|), v, top);
    AppendElement(a, v);
  }

  lemma {:induction false} RemovalsApplied(a: seq<Json>, keep: nat, top: bool)
    requires keep <= |a|
    ensures Yields(ApplyAll(Arr(a), Removals(|a|, keep), top), keep < |a| ==> |a| <= INT_MAX + 1, Arr(a[..keep]))
    decreases |a|
  {
    if keep < |a| {
      var n := |a| - 1;
      LastRemoved(a, top);
      if n <= INT_MAX {
        RemovalsApplied(a[..n], keep, top);
        assert a[..n][..keep] == a[..keep];
      }
    } else {
      assert a[..keep] == a;
    }
  }

  lemma {:induction false} AdditionsApplied(a: seq<Json>, b: seq<Json>, top: bool)
    requires |a| <= |b|
    ensures Yields(ApplyAll(Arr(a), Additions(b, |a|), top), |a| < |b| ==> |b| <= INT_MAX + 1, Arr(a + b[|a|..]))
    decreases |b| - |a|
  {
    if |a| < |b| {
      var i := |a|;
      OneAppended(a, b[i], top);
      if i <= INT_MAX {
        AdditionsApplied(a + [b[i]], b, top);
        assert (a + [b[i]]) + b[i + 1..] == a + b[i..];
      }
    } else {
      assert a + b[|a|..] == a;
    }
  }

  /** Behind the common elements: the surplus of the source goes, or that of the target comes. */
  lemma SurplusApplied(s: Json, t: Json, top: bool)
    requires s.Arr? && t.Arr? && !Eq(s, t)
    ensures var (a, b) := (s.a, t.a);
      Yields(ApplyAll(Arr(MergedUpTo(a, b, |a|)), Removals(|a|, |b|) + Additions(b, |a|), top),
             |a| != |b| ==> |a| <= INT_MAX + 1 && |b| <= INT_MAX + 1, Merge(s, t))
  {
    var a, b := s.a, t.a;
    var merged := MergedUpTo(a, b, |a|);
    if |a| > |b| {
      RemovalsApplied(merged, |b|, top);
      assert Additions(b, |a|) == [];
      Unpadded(Removals(|a|, |b|));
      assert merged[..|b|] == Merge(s, t).a;
    } else {
      AdditionsApplied(merged, b, top);
      assert Removals(|a|, |b|) == [];
      Unpadded(Additions(b, |a|));
      assert merged + b[|a|..] == Merge(s, t).a;
    }
  }

  lemma ArrayApplied(s: Json, t: Json, top: bool)
    requires s.Arr? && t.Arr? && !Eq(s, t)
    ensures Yields(ApplyAll(s, Changes(s, t), top), Fits(s, t), Merge(s, t))
    decreases s, 1
  {
    var a, b := s.a, t.a;
    var surplus := Removals(|a|, |b|) + Additions(b, |a|);
    assert MergedUpTo(a, b, 0) == a;
    ElementsApplied(s, t, 0, top);
    SurplusApplied(s, t, top);
    Associates(ElementChanges(s, t, 0), Removals(|a|, |b|), Additions(b, |a|));
    YieldsConcat(s, ElementChanges(s, t, 0), surplus, top, FitFrom(a, b, 0), Arr(MergedUpTo(a, b, |a|)),
                 |a| != |b| ==> |a| <= INT_MAX + 1 && |b| <= INT_MAX + 1, Merge(s, t));
  }

  // -------------------------------------------------------------------------------------
  // Objects
  // -------------------------------------------------------------------------------------

  /** The object after the changes of all members of the source but the remaining ones. */
  function MergedBut(m: map<string, Json>, n: map<string, Json>, rest: seq<string>): map<string, Json> {
    map k | k in m && (k in rest || k in n) :: if k in rest then m[k] else Merge(m[k], n[k])
  }

  predicate FitIn(m: map<string, Json>, n: map<string, Json>, rest: seq<string>) {
    forall k :: k in rest && k in m && k in n ==> Fits(m[k], n[k])
  }

  /** The changes of one member of the source. */
  function MemberChange(s: Json, t: Json, k: string): seq<Change>
    requires s.Obj? && t.Obj? && k in s.m
  {
    if k in t.m then UnderAll(k, Changes(s.m[k], t.m[k])) else [RemoveFrom([k])]
  }

  lemma MergedNext(m: map<string, Json>, n: map<string, Json>, keys: seq<string>)
    requires keys != [] && Distinct(keys) && keys[0] in m
    ensures var (before, after) := (MergedBut(m, n, keys), MergedBut(m, n, keys[1..]));
      keys[0] in before && before[keys[0]] == m[keys[0]] &&
      (if keys[0] in n then before[keys[0] := Merge(m[keys[0]], n[keys[0]])] == after else before - {keys[0]} == after)
  {
    var k := keys[0];
    var before, after := MergedBut(m, n, keys), MergedBut(m, n, keys[1..]);
    assert k !in keys[1..];
    assert forall x :: x != k ==> (x in keys <==> x in keys[1..]);
  }

  lemma MemberApplied(s: Json, t: Json, keys: seq<string>, top: bool)
    requires s.Obj? && t.Obj? && keys != [] && Distinct(keys) && keys[0] in s.m
    requires keys[0] in t.m ==> var (x, y) := (s.m[keys[0]], t.m[keys[0]]);
      Yields(ApplyAll(x, Changes(x, y), false), Fits(x, y), Merge(x, y))
    ensures Yields(ApplyAll(Obj(MergedBut(s.m, t.m, keys)), MemberChange(s, t, keys[0]), top),
                   keys[0] in t.m ==> Fits(s.m[keys[0]], t.m[keys[0]]), Obj(MergedBut(s.m, t.m, keys[1..])))
  {
    var k := keys[0];
    var before, after := MergedBut(s.m, t.m, keys), MergedBut(s.m, t.m, keys[1..]);
    MergedNext(s.m, t.m, keys);
    if k in t.m {
      ChangesProper(s.m[k], t.m[k]);
      ApplyUnderAll(Obj(before), k, Changes(s.m[k], t.m[k]), top);
    } else {
      ApplyToChild(Obj(before), k, Null, top);
      assert Apply(Obj(before), RemoveFrom([k]), top) == Ok(Obj(after));
    }
  }

  lemma {:induction false} MembersApplied(s: Json, t: Json, keys: seq<string>, top: bool)
    requires s.Obj? && t.Obj? && Distinct(keys) && forall k :: k in keys ==> k in s.m
    ensures Yields(ApplyAll(Obj(MergedBut(s.m, t.m, keys)), MemberChanges(s, t, keys), top),
                   FitIn(s.m, t.m, keys), Obj(MergedBut(s.m, t.m, [])))
    decreases s, 0, |keys|
  {
    if keys != [] {
      var k := keys[0];
      var here := k in t.m ==> Fits(s.m[k], t.m[k]);
      if k in t.m {
        ChangesApplied(s.m[k], t.m[k], false);
      }
      MemberApplied(s, t, keys, top);
      MembersApplied(s, t, keys[1..], top);
      YieldsConcat(Obj(MergedBut(s.m, t.m, keys)), MemberChange(s, t, k), MemberChanges(s, t, keys[1..]), top,
                   here, Obj(MergedBut(s.m, t.m, keys[1..])), FitIn(s.m, t.m, keys[1..]), Obj(MergedBut(s.m, t.m, [])));
      assert FitIn(s.m, t.m, keys) <==> here && FitIn(s.m, t.m, keys[1..]);
    }
  }

  /** The members of the target that the source lacks. */
  function Missing(m: map<string, Json>, n: map<string, Json>, keys: seq<string>): map<string, Json> {
    map k | k in n && k in keys && k !in m :: n[k]
  }

  lemma MissingStep(m: map<string, Json>, n: map<string, Json>, d: map<string, Json>, keys: seq<string>)
    requires keys != [] && keys[0] in n
    ensures (if keys[0] in m then d else d[keys[0] := n[keys[0]]]) + Missing(m, n, keys[1..]) == d + Missing(m, n, keys)
  {
  }

  lemma MemberAdded(d: map<string, Json>, k: string, v: Json, top: bool)
    ensures Apply(Obj(d), AddTo([k], v), top) == Ok(Obj(d[k := v]))
  {
    ApplyToChild(Obj(d), k, v, top);
  }

  /** The missing members of the target are added to those that are there. */
  lemma {:induction false} NewMembersApplied(
      m: map<string, Json>, n: map<string, Json>, d: map<string, Json>, keys: seq<string>, top: bool)
    requires forall k :: k in keys ==> k in n
    ensures ApplyAll(Obj(d), NewMembers(m, n, keys), top) == Ok(Obj(d + Missing(m, n, keys)))
    decreases |keys|
  {
    if keys == [] {
      assert d + Missing(m, n, keys) == d;
    } else {
      var k := keys[0];
      MissingStep(m, n, d, keys);
      if k in m {
        assert NewMembers(m, n, keys) == NewMembers(m, n, keys[1..]);
        NewMembersApplied(m, n, d, keys[1..], top);
      } else {
        MemberAdded(d, k, n[k], top);
        NewMembersApplied(m, n, d[k := n[k]], keys[1..], top);
      }
    }
  }

  lemma NothingMerged(m: map<string, Json>, n: map<string, Json>)
    ensures MergedBut(m, n, Sorted(m.Keys)) == m
  {
  }

  /** The merged object member by member. */
  predicate IsMerge(m: map<string, Json>, n: map<string, Json>, d: map<string, Json>) {
    d.Keys == n.Keys && forall k :: k in n ==> d[k] == if k in m then Merge(m[k], n[k]) else n[k]
  }

  lemma MergeIsMerge(m: map<string, Json>, n: map<string, Json>)
    requires !Eq(Obj(m), Obj(n))
    ensures Merge(Obj(m), Obj(n)).Obj? && IsMerge(m, n, Merge(Obj(m), Obj(n)).m)
  {
  }

  lemma SumIsMerge(m: map<string, Json>, n: map<string, Json>)
    ensures IsMerge(m, n, MergedBut(m, n, []) + Missing(m, n, Sorted(n.Keys)))
  {
  }

  lemma EverythingMerged(m: map<string, Json>, n: map<string, Json>)
    requires !Eq(Obj(m), Obj(n))
    ensures Merge(Obj(m), Obj(n)) == Obj(MergedBut(m, n, []) + Missing(m, n, Sorted(n.Keys)))
  {
    MergeIsMerge(m, n);
    SumIsMerge(m, n);
  }

  lemma FitMembers(m: map<string, Json>, n: map<string, Json>)
    requires !Eq(Obj(m), Obj(n))
    ensures Fits(Obj(m), Obj(n)) <==> FitIn(m, n, Sorted(m.Keys))
  {
  }

  lemma ObjectApplied(s: Json, t: Json, top: bool)
    requires s.Obj? && t.Obj? && !Eq(s, t)
    ensures Yields(ApplyAll(s, Changes(s, t), top), Fits(s, t), Merge(s, t))
    decreases s, 1
  {
    var m, n := s.m, t.m;
    var keys, others := Sorted(m.Keys), Sorted(n.Keys);
    SortedDistinct(m.Keys);
    var merged := MergedBut(m, n, []);
    NothingMerged(m, n);
    EverythingMerged(m, n);
    FitMembers(m, n);
    MembersApplied(s, t, keys, top);
    NewMembersApplied(m, n, merged, others, top);
    YieldsConcat(s, MemberChanges(s, t, keys), NewMembers(m, n, others), top,
                 FitIn(m, n, keys), Obj(merged), true, Merge(s, t));
  }

  // -------------------------------------------------------------------------------------
  // The round trip
  // -------------------------------------------------------------------------------------

  /** The changes turn the source into the target merged with it, or fail at an unreadable index. */
  lemma {:induction false} ChangesApplied(s: Json, t: Json, top: bool)
    ensures Yields(ApplyAll(s, Changes(s, t), top), Fits(s, t), Merge(s, t))
    decreases s, 2
  {
    if Eq(s, t) {
    } else if s.Arr? && t.Arr? {
      ArrayApplied(s, t, top);
    } else if s.Obj? && t.Obj? {
      ObjectApplied(s, t, top);
    } else {
    }
  }

  lemma {:induction false} MergeEqualsTarget(s: Json, t: Json)
    ensures Eq(Merge(s, t), t) <==> NaNFree(t)
    decreases s
  {
    if Eq(s, t) {
      EqIsNaNFree(s, t);
    } else {
      match (s, t)
      case (Arr(a), Arr(b)) =>
        forall k | 0 <= k < |b| ensures Eq(Merge(s, t).a[k], b[k]) <==> NaNFree(b[k]) {
          if k < |a| { MergeEqualsTarget(a[k], b[k]); } else { EqReflexive(b[k]); }
        }
      case (Obj(m), Obj(n)) =>
        forall k | k in n ensures Eq(Merge(s, t).m[k], n[k]) <==> NaNFree(n[k]) {
          if k in m { MergeEqualsTarget(m[k], n[k]); } else { EqReflexive(n[k]); }
        }
      case _ => EqReflexive(t);
    }
  }

  /** A change at the root is the operation with the text of its tokens as path. */
  lemma ApplyAtRoot(doc: Json, c: Change)
    ensures ApplyElement(doc, WriteOp(At("", c))) == Apply(doc, c, true)
  {
    var op := At("", c);
    assert "" + Text(c.tokens) == Text(c.tokens);
    ToStringIsText(c.tokens);
    SplitInvertsToString(c.tokens);
    ReadInvertsWrite(op);
  }

  lemma {:induction false} ApplyAllAtRoot(doc: Json, cs: seq<Change>)
    ensures ApplyElements(doc, AllAt("", cs)) == ApplyAll(doc, cs, true)
    decreases |cs|
  {
    if cs != [] {
      ApplyAtRoot(doc, cs[0]);
      var r := Apply(doc, cs[0], true);
      if r.Ok? {
        ApplyAllAtRoot(r.value, cs[1..]);
      }
    }
  }

  /** Which patch of a diff succeeds, and what it gives. */
  lemma PatchOfDiff(s: Json, t: Json)
    ensures Yields(Patch(s, Diff(s, t, "")), Fits(s, t), Merge(s, t))
  {
    ChangesApplied(s, t, true);
    ApplyAllAtRoot(s, Changes(s, t));
  }

  /** source.patch(diff(source, target)) == target, and exactly when. */
  lemma PatchInvertsDiff(s: Json, t: Json)
    ensures var r := Patch(s, Diff(s, t, ""));
      (r.Ok? && Eq(r.value, t)) <==> (Fits(s, t) && NaNFree(t))
  {
    PatchOfDiff(s, t);
    MergeEqualsTarget(s, t);
  }

  /** Arrays of at most 2^31 elements. */
  predicate SmallArrays(j: Json) {
    match j
    case Arr(a) => |a| <= INT_MAX + 1 && forall k :: 0 <= k < |a| ==> SmallArrays(a[k])
    case Obj(m) => forall k :: k in m ==> SmallArrays(m[k])
    case _ => true
  }

  lemma {:induction false} SmallArraysFit(s: Json, t: Json)
    requires SmallArrays(s) && SmallArrays(t)
    ensures Fits(s, t)
    decreases s
  {
    match (s, t)
    case (Arr(a), Arr(b)) =>
      forall k | 0 <= k < |a| && k < |b| ensures Fits(a[k], b[k]) { SmallArraysFit(a[k], b[k]); }
    case (Obj(m), Obj(n)) =>
      forall k | k in m && k in n ensures Fits(m[k], n[k]) { SmallArraysFit(m[k], n[k]); }
    case _ =>
  }

  /** Beyond INT_MAX the promise fails: the last null of the longer array cannot be added. */
  lemma LongArraysAreLost()
    ensures var s, t := Arr(seq(INT_MAX + 1, _ => Null)), Arr(seq(INT_MAX + 2, _ => Null));
      NaNFree(t) && var r := Patch(s, Diff(s, t, "")); !(r.Ok? && Eq(r.value, t))
  {
    var s, t := Arr(seq(INT_MAX + 1, _ => Null)), Arr(seq(INT_MAX + 2, _ => Null));
    assert !Eq(s, t) && |s.a| != |t.a|;
    PatchInvertsDiff(s, t);
  }

  // -------------------------------------------------------------------------------------
  // The diff as the source builds it
  // -------------------------------------------------------------------------------------

  lemma {:induction false} AllAtConcat(path: string, a: seq<Change>, b: seq<Change>)
    ensures AllAt(path, a + b) == AllAt(path, a) + AllAt(path, b)
    decreases |a|
  {
    if a == [] {
      assert a + b == b;
    } else {
      assert (a + b)[1..] == a[1..] + b;
      AllAtConcat(path, a[1..], b);
    }
  }

  /** Changes below a child are the child's changes at the longer path. */
  lemma {:induction false} AllAtUnder(path: string, token: string, cs: seq<Change>)
    ensures AllAt(path, UnderAll(token, cs)) == AllAt(path + "/" + Escape(token), cs)
    decreases |cs|
  {
    if cs != [] {
      var tokens := cs[0].tokens;
      assert ([token] + tokens)[1..] == tokens;
      assert path + ("/" + Escape(token) + Text(tokens)) == path + "/" + Escape(token) + Text(tokens);
      AllAtUnder(path, token, cs[1..]);
    }
  }

  lemma OneAt(path: string, token: string, value: Json)
    ensures AllAt(path, [RemoveFrom([token])]) == [WriteOp(Remove(path + "/" + Escape(token)))]
    ensures AllAt(path, [AddTo([token], value)]) == [WriteOp(Add(path + "/" + Escape(token), value))]
  {
    assert Text([token]) == "/" + Escape(token) by {
      assert [token][1..] == [] && "/" + Escape(token) + [] == "/" + Escape(token);
    }
    assert path + ("/" + Escape(token)) == path + "/" + Escape(token);
    assert AllAt(path, []) == [];
  }

  lemma ElementChangesAt(s: Json, t: Json, i: nat, path: string)
    requires s.Arr? && t.Arr? && i < |s.a| && i < |t.a|
    ensures AllAt(path, ElementChanges(s, t, i)) ==
      Diff(s.a[i], t.a[i], path + "/" + Decimal(i)).a + AllAt(path, ElementChanges(s, t, i + 1))
  {
    EscapeDecimal(i);
    AllAtConcat(path, UnderAll(Decimal(i), Changes(s.a[i], t.a[i])), ElementChanges(s, t, i + 1));
    AllAtUnder(path, Decimal(i), Changes(s.a[i], t.a[i]));
  }

  lemma RemovalsAt(i: nat, keep: nat, path: string)
    requires keep <= i
    ensures AllAt(path, Removals(i + 1, keep)) ==
      [WriteOp(Remove(path + "/" + Decimal(i)))] + AllAt(path, Removals(i, keep))
  {
    EscapeDecimal(i);
    OneAt(path, Decimal(i), Null);
    AllAtConcat(path, [RemoveFrom([Decimal(i)])], Removals(i, keep));
  }

  lemma AdditionsAt(b: seq<Json>, i: nat, path: string)
    requires i < |b|
    ensures AllAt(path, Additions(b, i)) ==
      [WriteOp(Add(path + "/" + Decimal(i), b[i]))] + AllAt(path, Additions(b, i + 1))
  {
    EscapeDecimal(i);
    OneAt(path, Decimal(i), b[i]);
    AllAtConcat(path, [AddTo([Decimal(i)], b[i])], Additions(b, i + 1));
  }

  lemma ArrayDiffParts(s: Json, t: Json, path: string)
    requires s.Arr? && t.Arr? && !Eq(s, t)
    ensures Diff(s, t, path).a == AllAt(path, ElementChanges(s, t, 0))
      + AllAt(path, Removals(|s.a|, |t.a|)) + AllAt(path, Additions(t.a, |s.a|))
  {
    AllAtConcat(path, ElementChanges(s, t, 0), Removals(|s.a|, |t.a|));
    AllAtConcat(path, ElementChanges(s, t, 0) + Removals(|s.a|, |t.a|), Additions(t.a, |s.a|));
  }

  /** The first pass over two arrays: their common elements. */
  method DiffElements(source: Json, target: Json, path: string) returns (result: seq<Json>, i: nat)
    requires source.Arr? && target.Arr?
    ensures result == AllAt(path, ElementChanges(source, target, 0))
    ensures i <= |source.a| && i <= |target.a| && (i == |source.a| || i == |target.a|)
    decreases source, 0
  {
    result := [];
    ghost var common := AllAt(path, ElementChanges(source, target, 0));
    i := 0;
    while i < |source.a| && i < |target.a|
      invariant i <= |source.a| && i <= |target.a|
      invariant common == result + AllAt(path, ElementChanges(source, target, i))
    {
      ElementChangesAt(source, target, i, path);
      var changes := DiffDocument(source.a[i], target.a[i], path + "/" + Decimal(i));
      result := result + changes.a;
      i := i + 1;
    }
  }

  /** Then the surplus elements, each inserted before the last one. */
  method DiffSurplus(start: nat, n: nat, keep: nat, path: string, common: seq<Json>) returns (result: seq<Json>)
    requires start <= n && start <= keep && (start == n || start == keep)
    ensures result == common + AllAt(path, Removals(n, keep))
  {
    result := common;
    var end := |result|;
    var i := start;
    while i < n
      invariant start <= i <= n
      invariant result == common + AllAt(path, Removals(i, keep))
    {
      RemovalsAt(i, keep, path);
      result := result[..end] + [WriteOp(Remove(path + "/" + Decimal(i)))] + result[end..];
      i := i + 1;
    }
  }

  /** And last the additional elements. */
  method DiffAdditional(b: seq<Json>, start: nat, path: string, before: seq<Json>) returns (result: seq<Json>)
    ensures result == before + AllAt(path, Additions(b, start))
  {
    result := before;
    var i := start;
    ghost var all := before + AllAt(path, Additions(b, start));
    while i < |b|
      invariant all == result + AllAt(path, Additions(b, i))
    {
      AdditionsAt(b, i, path);
      result := result + [WriteOp(Add(path + "/" + Decimal(i), b[i]))];
      i := i + 1;
    }
  }

  method DiffArrays(source: Json, target: Json, path: string) returns (result: seq<Json>)
    requires source.Arr? && target.Arr? && !Eq(source, target)
    ensures Arr(result) == Diff(source, target, path)
    decreases source, 1
  {
    ArrayDiffParts(source, target, path);
    var i: nat;
    result, i := DiffElements(source, target, path);
    result := DiffSurplus(i, |source.a|, |target.a|, path, result);
    result := DiffAdditional(target.a, |source.a|, path, result);
  }

  /** What the diff says about one member of the source, and about one of the target. */
  function MemberDiff(s: Json, t: Json, k: string, path: string): seq<Json>
    requires s.Obj? && t.Obj? && k in s.m
  {
    if k in t.m then Diff(s.m[k], t.m[k], path + "/" + Escape(k)).a else [WriteOp(Remove(path + "/" + Escape(k)))]
  }

  function NewMemberDiff(m: map<string, Json>, n: map<string, Json>, k: string, path: string): seq<Json>
    requires k in n
  {
    if k in m then [] else [WriteOp(Add(path + "/" + Escape(k), n[k]))]
  }

  lemma MemberChangesAt(s: Json, t: Json, keys: seq<string>, path: string)
    requires s.Obj? && t.Obj? && keys != [] && forall k :: k in keys ==> k in s.m
    ensures AllAt(path, MemberChanges(s, t, keys)) ==
      MemberDiff(s, t, keys[0], path) + AllAt(path, MemberChanges(s, t, keys[1..]))
  {
    var k := keys[0];
    AllAtConcat(path, MemberChange(s, t, k), MemberChanges(s, t, keys[1..]));
    if k in t.m {
      AllAtUnder(path, k, Changes(s.m[k], t.m[k]));
    } else {
      OneAt(path, k, Null);
    }
  }

  lemma NewMembersAt(m: map<string, Json>, n: map<string, Json>, keys: seq<string>, path: string)
    requires keys != [] && forall k :: k in keys ==> k in n
    ensures AllAt(path, NewMembers(m, n, keys)) ==
      NewMemberDiff(m, n, keys[0], path) + AllAt(path, NewMembers(m, n, keys[1..]))
  {
    var k := keys[0];
    OneAt(path, k, n[k]);
    AllAtConcat(path, if k in m then [] else [AddTo([k], n[k])], NewMembers(m, n, keys[1..]));
  }

  lemma MembersStep(s: Json, t: Json, keys: seq<string>, i: nat, path: string, all: seq<Json>, done: seq<Json>)
    requires s.Obj? && t.Obj? && i < |keys| && forall k :: k in keys ==> k in s.m
    requires all == done + AllAt(path, MemberChanges(s, t, keys[i..]))
    ensures all == done + MemberDiff(s, t, keys[i], path) + AllAt(path, MemberChanges(s, t, keys[i + 1..]))
  {
    assert keys[i..][0] == keys[i] && keys[i..][1..] == keys[i + 1..];
    MemberChangesAt(s, t, keys[i..], path);
  }

  /** The new members from the i-th key on. */
  function NewMembersFrom(m: map<string, Json>, n: map<string, Json>, keys: seq<string>, i: nat, path: string): seq<Json>
    requires i <= |keys| && forall k :: k in keys ==> k in n
  {
    AllAt(path, NewMembers(m, n, keys[i..]))
  }

  lemma NewMembersStep(m: map<string, Json>, n: map<string, Json>, keys: seq<string>, i: nat, path: string)
    requires i < |keys| && forall k :: k in keys ==> k in n
    ensures NewMembersFrom(m, n, keys, i, path) ==
      NewMemberDiff(m, n, keys[i], path) + NewMembersFrom(m, n, keys, i + 1, path)
  {
    assert keys[i..][0] == keys[i] && keys[i..][1..] == keys[i + 1..];
    NewMembersAt(m, n, keys[i..], path);
  }

  /** A loop step over a key of the target that the source has, and over one it lacks. */
  lemma OldMemberSkipped(m: map<string, Json>, n: map<string, Json>, keys: seq<string>, i: nat, path: string)
    requires i < |keys| && (forall k :: k in keys ==> k in n) && keys[i] in m
    ensures NewMembersFrom(m, n, keys, i, path) == NewMembersFrom(m, n, keys, i + 1, path)
  {
    NewMembersStep(m, n, keys, i, path);
    assert [] + NewMembersFrom(m, n, keys, i + 1, path) == NewMembersFrom(m, n, keys, i + 1, path);
  }

  lemma NewMemberAdded(m: map<string, Json>, n: map<string, Json>, keys: seq<string>, i: nat, path: string, done: seq<Json>)
    requires i < |keys| && (forall k :: k in keys ==> k in n) && keys[i] !in m
    ensures done + NewMembersFrom(m, n, keys, i, path) ==
      done + [WriteOp(Add(path + "/" + Escape(keys[i]), n[keys[i]]))] + NewMembersFrom(m, n, keys, i + 1, path)
  {
    NewMembersStep(m, n, keys, i, path);
  }

  lemma NewMembersEnds(m: map<string, Json>, n: map<string, Json>, keys: seq<string>, path: string)
    requires forall k :: k in keys ==> k in n
    ensures NewMembersFrom(m, n, keys, 0, path) == AllAt(path, NewMembers(m, n, keys))
    ensures NewMembersFrom(m, n, keys, |keys|, path) == []
  {
    assert keys[0..] == keys;
  }

  /** The first pass over two objects: the members of the source. */
  method DiffMembers(source: Json, target: Json, path: string) returns (result: seq<Json>)
    requires source.Obj? && target.Obj?
    ensures result == AllAt(path, MemberChanges(source, target, Sorted(source.m.Keys)))
    decreases source, 0
  {
    result := [];
    var keys := Sorted(source.m.Keys);
    ghost var all := AllAt(path, MemberChanges(source, target, keys));
    assert keys[0..] == keys;
    for i := 0 to |keys|
      invariant all == result + AllAt(path, MemberChanges(source, target, keys[i..]))
    {
      var k := keys[i];
      MembersStep(source, target, keys, i, path, all, result);
      if k in target.m {
        var changes := DiffDocument(source.m[k], target.m[k], path + "/" + Escape(k));
        result := result + changes.a;
      } else {
        result := result + [WriteOp(Remove(path + "/" + Escape(k)))];
      }
    }
  }

  lemma ObjectDiffParts(s: Json, t: Json, path: string)
    requires s.Obj? && t.Obj? && !Eq(s, t)
    ensures Diff(s, t, path).a == AllAt(path, MemberChanges(s, t, Sorted(s.m.Keys)))
      + AllAt(path, NewMembers(s.m, t.m, Sorted(t.m.Keys)))
  {
    AllAtConcat(path, MemberChanges(s, t, Sorted(s.m.Keys)), NewMembers(s.m, t.m, Sorted(t.m.Keys)));
  }

  /** Then the members that only the target has. */
  method DiffObjects(source: Json, target: Json, path: string) returns (result: seq<Json>)
    requires source.Obj? && target.Obj? && !Eq(source, target)
    ensures Arr(result) == Diff(source, target, path)
    decreases source, 1
  {
    ObjectDiffParts(source, target, path);
    result := DiffMembers(source, target, path);
    result := DiffNewMembers(source.m, target.m, Sorted(target.m.Keys), path, result);
  }

  method DiffNewMembers(m: map<string, Json>, n: map<string, Json>, keys: seq<string>, path: string, before: seq<Json>)
    returns (result: seq<Json>)
    requires forall k :: k in keys ==> k in n
    ensures result == before + AllAt(path, NewMembers(m, n, keys))
  {
    result := before;
    ghost var all := before + NewMembersFrom(m, n, keys, 0, path);
    NewMembersEnds(m, n, keys, path);
    for i := 0 to |keys|
      invariant all == result + NewMembersFrom(m, n, keys, i, path)
    {
      var k := keys[i];
      if k in m {
        OldMemberSkipped(m, n, keys, i, path);
      } else {
        NewMemberAdded(m, n, keys, i, path, result);
        result := result + [WriteOp(Add(path + "/" + Escape(k), n[k]))];
      }
    }
  }

  lemma WholeReplaced(path: string, value: Json)
    ensures AllAt(path, [ReplaceAt([], value)]) == [WriteOp(Replace(path, value))]
  {
    var cs := [ReplaceAt([], value)];
    assert path + Text([]) == path && cs[1..] == [];
  }

  /** diff, as the source computes it: recursively, with growing path texts. */
  method DiffDocument(source: Json, target: Json, path: string) returns (result: Json)
    ensures result == Diff(source, target, path)
    decreases source, 2
  {
    if Eq(source, target) {
      return Arr([]);
    }
    if TypeOf(source) == TypeOf(target) && source.Arr? {
      var changes := DiffArrays(source, target, path);
      return Arr(changes);
    }
    if TypeOf(source) == TypeOf(target) && source.Obj? {
      var changes := DiffObjects(source, target, path);
      return Arr(changes);
    }
    WholeReplaced(path, target);
    return Arr([WriteOp(Replace(path, target))]);
  }
}
