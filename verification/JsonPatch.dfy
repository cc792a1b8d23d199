/**
 JSON Patch as the library reads, writes and applies it.
 */
module JsonPatch {
  import opened Integers
  import opened Json
  import opened JsonResult
  import opened JsonPointer
  import opened Numerals
  import opened JsonNavigate
  import opened Keys

  /** A patch operation; path and from are the texts of pointers. */
  datatype PatchOp =
    | Add(path: string, value: Json)
    | Remove(path: string)
    | Replace(path: string, value: Json)
    | Move(from: string, path: string)
    | Copy(from: string, path: string)
    | Test(path: string, value: Json)

  // -------------------------------------------------------------------------------------
  // Applying a patch
  // -------------------------------------------------------------------------------------

  /** The member of an operation object, which must be there. */
  function Member(m: map<string, Json>, name: string): Result<Json> {
    if name in m then Ok(m[name]) else Err(BadPatch)
  }

  function TextMember(m: map<string, Json>, name: string): Result<string> {
    if name in m && m[name].Str? then Ok(m[name].s) else Err(BadPatch)
  }

  /** One element of the patch array, read in the order of the source; a bad path comes before a bad value. */
  function ReadOp(j: Json): Result<PatchOp> {
    if !j.Obj? then Err(BadPatch)
    else
      var op, path := TextMember(j.m, "op"), TextMember(j.m, "path");
      if op.Err? || path.Err? then Err(BadPatch)
      else if Split(path.value).Err? then Err(Split(path.value).error)
      else if op.value == "add" || op.value == "replace" || op.value == "test" then
        var v := Member(j.m, "value");
        if op.value == "test" && v.Err? then Err(v.error)
        else if v.Err? then Err(v.error)
        else if op.value == "add" then Ok(Add(path.value, v.value))
        else if op.value == "replace" then Ok(Replace(path.value, v.value))
        else Ok(Test(path.value, v.value))
      else if op.value == "remove" then Ok(Remove(path.value))
      else if op.value == "move" || op.value == "copy" then
        var from := TextMember(j.m, "from");
        if from.Err? then Err(from.error)
        else if op.value == "move" then Ok(Move(from.value, path.value))
        else Ok(Copy(from.value, path.value))
      else Err(BadPatch)
  }

  /** The object that stands for an operation in a patch. */
  function WriteOp(op: PatchOp): Json {
    match op
    case Add(path, value) => Obj(map["op" := Str("add"), "path" := Str(path), "value" := value])
    case Remove(path) => Obj(map["op" := Str("remove"), "path" := Str(path)])
    case Replace(path, value) => Obj(map["op" := Str("replace"), "path" := Str(path), "value" := value])
    case Move(from, path) => Obj(map["op" := Str("move"), "from" := Str(from), "path" := Str(path)])
    case Copy(from, path) => Obj(map["op" := Str("copy"), "from" := Str(from), "path" := Str(path)])
    case Test(path, value) => Obj(map["op" := Str("test"), "path" := Str(path), "value" := value])
  }

  /** "add" at the place of some tokens; top: the first token of a longer path must exist. */
  function AddAt(doc: Json, tokens: seq<string>, value: Json, top: bool): Result<Json> {
    if tokens == [] then Ok(value)
    else if top && |tokens| > 1 && GetAt(doc, [tokens[0]]).Err? then Err(GetAt(doc, [tokens[0]]).error)
    else ModifyCreating(doc, tokens[..|tokens| - 1], AddChild(tokens[|tokens| - 1], value))
  }

  function RemoveAt(doc: Json, tokens: seq<string>): Result<Json> {
    if tokens == [] then Err(NoParent)
    else ModifyChecked(doc, tokens[..|tokens| - 1], RemoveChild(tokens[|tokens| - 1]))
  }

  /** "move": remove, then add. */
  function MoveAt(doc: Json, from: seq<string>, tokens: seq<string>): Result<Json> {
    var v := GetAt(doc, from);
    if v.Err? then v
    else
      var removed := RemoveAt(doc, from);
      if removed.Err? then removed else AddAt(removed.value, tokens, v.value, true)
  }

  /**
   One operation. In a copy the value is looked up before the place it goes to is created: C++17 evaluates the right
   side of an assignment first. In a test both sides of == may come first, which only decides between two errors.
   */
  function ApplyOp(doc: Json, op: PatchOp): Result<Json> {
    var path := Split(op.path);
    if path.Err? then Err(path.error)
    else
      match op
      case Add(_, value) => AddAt(doc, path.value, value, true)
      case Remove(_) => RemoveAt(doc, path.value)
      case Replace(_, value) => ModifyChecked(doc, path.value, Assign(value))
      case Move(from, _) =>
        var source := Split(from);
        if source.Err? then Err(source.error)
        else MoveAt(doc, source.value, path.value)
      case Copy(from, _) =>
        var source := Split(from);
        if source.Err? then Err(source.error)
        else
          var v := GetAt(doc, source.value);
          if v.Err? then v else ModifyCreating(doc, path.value, Assign(v.value))
      case Test(_, value) =>
        var v := GetAt(doc, path.value);
        if v.Ok? then (if Eq(v.value, value) then Ok(doc) else Err(TestFailed))
        else if v.error in {IndexOutOfRange, DashIndex, KeyNotFound, Unresolved} then Err(TestFailed)
        else Err(v.error)
  }

  function ApplyElement(doc: Json, element: Json): Result<Json> {
    var op := ReadOp(element);
    if op.Err? then Err(op.error) else ApplyOp(doc, op.value)
  }

  /** The elements of a patch, one after the other, up to the first error. */
  function ApplyElements(doc: Json, elements: seq<Json>): Result<Json>
    decreases |elements|
  {
    if elements == [] then Ok(doc)
    else
      var r := ApplyElement(doc, elements[0]);
      if r.Err? then r else ApplyElements(r.value, elements[1..])
  }

  function Patch(doc: Json, patch: Json): Result<Json> {
    if patch.Arr? then ApplyElements(doc, patch.a) else Err(BadPatch)
  }

  /** The source's loop over the operations, on a working copy. */
  method PatchDocument(doc: Json, patch: Json) returns (r: Result<Json>)
    ensures r == Patch(doc, patch)
  {
    if !patch.Arr? {
      return Err(BadPatch);
    }
    var result := doc;
    for i := 0 to |patch.a|
      invariant ApplyElements(doc, patch.a) == ApplyElements(result, patch.a[i..])
    {
      var next := ApplyElement(result, patch.a[i]);
      assert patch.a[i..][1..] == patch.a[i + 1..];
      if next.Err? {
        return next;
      }
      result := next.value;
    }
    return Ok(result);
  }

  lemma ReadInvertsWrite(op: PatchOp)
    requires Split(op.path).Ok?
    ensures ReadOp(WriteOp(op)) == Ok(op)
  {
  }

  // -------------------------------------------------------------------------------------
  // The operations that turn one value into another
  // -------------------------------------------------------------------------------------

  /** An operation of a diff, relative to the place where the diff was taken. */
  datatype Change =
    | AddTo(tokens: seq<string>, value: Json)
    | RemoveFrom(tokens: seq<string>)
    | ReplaceAt(tokens: seq<string>, value: Json)

  /** The same change seen from the parent. */
  function Under(token: string, c: Change): Change {
    match c
    case AddTo(tokens, value) => AddTo([token] + tokens, value)
    case RemoveFrom(tokens) => RemoveFrom([token] + tokens)
    case ReplaceAt(tokens, value) => ReplaceAt([token] + tokens, value)
  }

  function UnderAll(token: string, cs: seq<Change>): seq<Change> {
    if cs == [] then [] else [Under(token, cs[0])] + UnderAll(token, cs[1..])
  }

  function Changes(s: Json, t: Json): seq<Change>
    decreases s, 1, 0
  {
    if Eq(s, t) then []
    else if s.Arr? && t.Arr? then
      ElementChanges(s, t, 0) + Removals(|s.a|, |t.a|) + Additions(t.a, |s.a|)
    else if s.Obj? && t.Obj? then
      MemberChanges(s, t, Sorted(s.m.Keys)) + NewMembers(s.m, t.m, Sorted(t.m.Keys))
    else [ReplaceAt([], t)]
  }

  /** The changes of the common elements, from index i on. */
  function ElementChanges(s: Json, t: Json, i: nat): seq<Change>
    requires s.Arr? && t.Arr?
    decreases s, 0, |s.a| - i
  {
    if i >= |s.a| || i >= |t.a| then []
    else UnderAll(Decimal(i), Changes(s.a[i], t.a[i])) + ElementChanges(s, t, i + 1)
  }

  /** The surplus elements go, the last one first. */
  function Removals(n: nat, keep: nat): seq<Change> {
    if n <= keep then [] else [RemoveFrom([Decimal(n - 1)])] + Removals(n - 1, keep)
  }

  function Additions(b: seq<Json>, i: nat): seq<Change>
    decreases |b| - i
  {
    if i >= |b| then [] else [AddTo([Decimal(i)], b[i])] + Additions(b, i + 1)
  }

  function MemberChanges(s: Json, t: Json, keys: seq<string>): seq<Change>
    requires s.Obj? && t.Obj? && forall k :: k in keys ==> k in s.m
    decreases s, 0, |keys|
  {
    if keys == [] then []
    else
      var k := keys[0];
      (if k in t.m then UnderAll(k, Changes(s.m[k], t.m[k])) else [RemoveFrom([k])])
      + MemberChanges(s, t, keys[1..])
  }

  function NewMembers(m: map<string, Json>, n: map<string, Json>, keys: seq<string>): seq<Change>
    requires forall k :: k in keys ==> k in n
    decreases |keys|
  {
    if keys == [] then []
    else (if keys[0] in m then [] else [AddTo([keys[0]], n[keys[0]])]) + NewMembers(m, n, keys[1..])
  }

  /** A change as an operation below a path. */
  function At(path: string, c: Change): PatchOp {
    match c
    case AddTo(tokens, value) => Add(path + Text(tokens), value)
    case RemoveFrom(tokens) => Remove(path + Text(tokens))
    case ReplaceAt(tokens, value) => Replace(path + Text(tokens), value)
  }

  function AllAt(path: string, cs: seq<Change>): seq<Json> {
    if cs == [] then [] else [WriteOp(At(path, cs[0]))] + AllAt(path, cs[1..])
  }

  function Diff(s: Json, t: Json, path: string): Json {
    Arr(AllAt(path, Changes(s, t)))
  }

  // -------------------------------------------------------------------------------------
  // Applying the changes
  // -------------------------------------------------------------------------------------

  function Apply(doc: Json, c: Change, top: bool): Result<Json> {
    match c
    case AddTo(tokens, value) => AddAt(doc, tokens, value, top)
    case RemoveFrom(tokens) => RemoveAt(doc, tokens)
    case ReplaceAt(tokens, value) => ModifyChecked(doc, tokens, Assign(value))
  }

  function ApplyAll(doc: Json, cs: seq<Change>, top: bool): Result<Json>
    decreases |cs|
  {
    if cs == [] then Ok(doc)
    else
      var r := Apply(doc, cs[0], top);
      if r.Err? then r else ApplyAll(r.value, cs[1..], top)
  }

  lemma {:induction false} ApplyConcat(doc: Json, a: seq<Change>, b: seq<Change>, top: bool)
    ensures ApplyAll(doc, a + b, top) ==
      (var r := ApplyAll(doc, a, top); if r.Err? then r else ApplyAll(r.value, b, top))
    decreases |a|
  {
    if a == [] {
      assert a + b == b;
    } else {
      assert (a + b)[1..] == a[1..] + b;
      var r := Apply(doc, a[0], top);
      if r.Ok? {
        ApplyConcat(r.value, a[1..], b, top);
      }
    }
  }

  /** Additions and removals name a child. */
  predicate Proper(c: Change) {
    c.ReplaceAt? || c.tokens != []
  }

  /** The result of changing a child, put back into its parent. */
  function Lifted(doc: Json, token: string, r: Result<Json>): Result<Json>
    requires ChildAt(doc, token).Ok?
  {
    if r.Err? then r else Ok(SetChild(doc, token, r.value))
  }

  /** A change below an existing child acts on that child alone. */
  lemma ApplyUnder(doc: Json, token: string, c: Change, top: bool)
    requires Proper(c) && ChildAt(doc, token).Ok?
    ensures Apply(doc, Under(token, c), top) == Lifted(doc, token, Apply(ChildAt(doc, token).value, c, false))
  {
    var tokens := [token] + c.tokens;
    match c
    case ReplaceAt(rest, value) =>
      CheckedStep(doc, token, rest, Assign(value));
    case RemoveFrom(rest) =>
      assert tokens[..|tokens| - 1] == [token] + rest[..|rest| - 1];
      CheckedStep(doc, token, rest[..|rest| - 1], RemoveChild(rest[|rest| - 1]));
    case AddTo(rest, value) =>
      assert tokens[..|tokens| - 1] == [token] + rest[..|rest| - 1];
      assert GetAt(doc, [token]) == ChildAt(doc, token) by { assert [token][1..] == []; }
      CreatingStep(doc, token, rest[..|rest| - 1], AddChild(rest[|rest| - 1], value));
  }

  /** Replacing a child leaves the token leading to it. */
  lemma ChildAfterSet(doc: Json, token: string, v: Json, w: Json)
    requires ChildAt(doc, token).Ok?
    ensures var d := SetChild(doc, token, v);
      ChildAt(d, token) == Ok(v) && SetChild(d, token, w) == SetChild(doc, token, w)
  {
  }

  lemma SetSame(doc: Json, token: string)
    requires ChildAt(doc, token).Ok?
    ensures SetChild(doc, token, ChildAt(doc, token).value) == doc
  {
    if doc.Obj? {
      assert doc.m[token := doc.m[token]] == doc.m;
    }
  }

  lemma {:induction false} ApplyUnderAll(doc: Json, token: string, cs: seq<Change>, top: bool)
    requires ChildAt(doc, token).Ok? && forall c :: c in cs ==> Proper(c)
    ensures ApplyAll(doc, UnderAll(token, cs), top) ==
      Lifted(doc, token, ApplyAll(ChildAt(doc, token).value, cs, false))
    decreases |cs|
  {
    if cs == [] {
      SetSame(doc, token);
    } else {
      ApplyUnder(doc, token, cs[0], top);
      var r := Apply(ChildAt(doc, token).value, cs[0], false);
      if r.Ok? {
        var d := SetChild(doc, token, r.value);
        ChildAfterSet(doc, token, r.value, r.value);
        ApplyUnderAll(d, token, cs[1..], top);
        var u := ApplyAll(r.value, cs[1..], false);
        if u.Ok? {
          ChildAfterSet(doc, token, r.value, u.value);
        }
      }
    }
  }

  /** A change below an array index that std::stoi cannot read is an error. */
  lemma ApplyUnderUnreadable(a: seq<Json>, i: nat, c: Change, top: bool)
    requires i > INT_MAX && Proper(c)
    ensures Apply(Arr(a), Under(Decimal(i), c), top).Err?
  {
    var token := Decimal(i);
    IndexOfDecimal(i);
    var tokens := [token] + c.tokens;
    if !c.ReplaceAt? {
      assert tokens[..|tokens| - 1][0] == token;
    }
  }
}
