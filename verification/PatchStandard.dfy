/**
 JSON Patch as section 4 of RFC 6902 describes it.
 */
module PatchStandard {
  import opened Json
  import opened JsonPointer
  import opened Numerals
  import opened JsonNavigate
  import opened JsonPatch
  import opened NumericEquality
  import opened Wrappers

  /** The value a pointer refers to. */
  function Locate(j: Json, tokens: seq<string>): Option<Json>
    decreases tokens
  {
    if tokens == [] then Some(j)
    else
      var c := Child(j, tokens[0]);
      if c.None? then None else Locate(c.value, tokens[1..])
  }

  function PutChild(j: Json, token: string, v: Json): Json
    requires Child(j, token).Some?
  {
    match j
    case Obj(m) => Obj(m[token := v])
    case Arr(a) => Arr(a[NumberOf(token) := v])
  }

  /** The target location must exist. */
  function StandardReplace(doc: Json, tokens: seq<string>, v: Json): Option<Json>
    decreases tokens
  {
    if tokens == [] then Some(v)
    else
      var c := Child(doc, tokens[0]);
      if c.None? then None
      else
        var r := StandardReplace(c.value, tokens[1..], v);
        if r.None? then None else Some(PutChild(doc, tokens[0], r.value))
  }

  /** An object gets or replaces the member; an array makes room for it. */
  function AddMember(j: Json, token: string, v: Json): Option<Json> {
    match j
    case Obj(m) => Some(Obj(m[token := v]))
    case Arr(a) =>
      if token == "-" then Some(Arr(a + [v]))
      else if IsIndex(token) && NumberOf(token) <= |a| then Some(Arr(a[..NumberOf(token)] + [v] + a[NumberOf(token)..]))
      else None
    case _ => None
  }

  function RemoveMember(j: Json, token: string): Option<Json> {
    if Child(j, token).None? then None
    else
      match j
      case Obj(m) => Some(Obj(m - {token}))
      case Arr(a) => Some(Arr(a[..NumberOf(token)] + a[NumberOf(token) + 1..]))
  }

  function Front(tokens: seq<string>): seq<string>
    requires tokens != []
  {
    tokens[..|tokens| - 1]
  }

  function Final(tokens: seq<string>): string
    requires tokens != []
  {
    tokens[|tokens| - 1]
  }

  /** What holds the target location. */
  function Parent(j: Json, tokens: seq<string>): Option<Json>
    requires tokens != []
  {
    Locate(j, Front(tokens))
  }

  /** The document with the parent of the target location changed. */
  function WithParent(doc: Json, tokens: seq<string>, r: Option<Json>): Option<Json>
    requires tokens != []
  {
    if r.None? then None else StandardReplace(doc, Front(tokens), r.value)
  }

  /** The object or array that holds the target location must exist. */
  function StandardAdd(doc: Json, tokens: seq<string>, v: Json): Option<Json> {
    if tokens == [] then Some(v)
    else if Parent(doc, tokens).None? then None
    else WithParent(doc, tokens, AddMember(Parent(doc, tokens).value, Final(tokens), v))
  }

  /** The target location must exist; the whole document cannot be removed. */
  function StandardRemove(doc: Json, tokens: seq<string>): Option<Json> {
    if tokens == [] || Parent(doc, tokens).None? then None
    else WithParent(doc, tokens, RemoveMember(Parent(doc, tokens).value, Final(tokens)))
  }

  /** move: a location cannot be moved into one of its children. */
  function StandardMove(doc: Json, from: seq<string>, tokens: seq<string>): Option<Json> {
    var v, removed := Locate(doc, from), StandardRemove(doc, from);
    if v.None? || from < tokens || removed.None? then None else StandardAdd(removed.value, tokens, v.value)
  }

  function StandardCopy(doc: Json, from: seq<string>, tokens: seq<string>): Option<Json> {
    var v := Locate(doc, from);
    if v.None? then None else StandardAdd(doc, tokens, v.value)
  }

  function StandardTest(doc: Json, tokens: seq<string>, v: Json): Option<Json> {
    if Locate(doc, tokens).Some? && StandardEq(Locate(doc, tokens).value, v) then Some(doc) else None
  }

  function StandardOp(doc: Json, op: PatchOp): Option<Json> {
    var path := Split(op.path);
    if path.Err? then None
    else
      match op
      case Add(_, value) => StandardAdd(doc, path.value, value)
      case Remove(_) => StandardRemove(doc, path.value)
      case Replace(_, value) => StandardReplace(doc, path.value, value)
      case Move(from, _) => if Split(from).Err? then None else StandardMove(doc, Split(from).value, path.value)
      case Copy(from, _) => if Split(from).Err? then None else StandardCopy(doc, Split(from).value, path.value)
      case Test(_, value) => StandardTest(doc, path.value, value)
  }

  /** The operations one after the other, up to the first that fails. */
  function StandardPatch(doc: Json, ops: seq<PatchOp>): Option<Json>
    decreases |ops|
  {
    if ops == [] then Some(doc)
    else
      var r := StandardOp(doc, ops[0]);
      if r.None? then None else StandardPatch(r.value, ops[1..])
  }
}
