/**
 Following a JSON pointer through a value, in the walk that checks every step and in the one that
 creates what is missing.
 */
module JsonNavigate {
  import opened Integers
  import opened Json
  import opened JsonResult
  import opened JsonPointer
  import opened Numerals
  import opened Wrappers

  /** A token as an array index; static_cast<size_type> turns a negative number into a huge one. */
  function Index(token: string): Result<nat> {
    if |token| > 1 && token[0] == '0' then Err(LeadingZero)
    else
      var n := Stoi(token);
      if n.Err? then Err(n.error)
      else Ok(if n.value < 0 then n.value + 0x1_0000_0000_0000_0000 else n.value)
  }

  /** An array index of RFC 6901: digits without leading zeros. */
  predicate IsIndex(token: string) {
    AllDigits(token) && Decimal(NumberOf(token)) == token
  }

  /** The child that a reference token names (section 4 of RFC 6901): array indices have no leading zeros. */
  function Child(j: Json, token: string): Option<Json> {
    match j
    case Obj(m) => if token in m then Some(m[token]) else None
    case Arr(a) =>
      if IsIndex(token) && NumberOf(token) < |a|
      then Some(a[NumberOf(token)]) else None
    case _ => None
  }

  /** at(token): the child must exist. */
  function ChildAt(j: Json, token: string): Result<Json> {
    match j
    case Obj(m) => if token in m then Ok(m[token]) else Err(KeyNotFound)
    case Arr(a) =>
      if token == "-" then Err(DashIndex)
      else
        var i := Index(token);
        if i.Err? then Err(i.error)
        else if i.value < |a| then Ok(a[i.value])
        else Err(IndexOutOfRange)
    case _ => Err(Unresolved)
  }

  /** The value with an existing child replaced. */
  function SetChild(j: Json, token: string, v: Json): Json
    requires ChildAt(j, token).Ok?
  {
    match j
    case Obj(m) => Obj(m[token := v])
    case Arr(a) => Arr(a[Index(token).value := v])
  }

  function GetAt(j: Json, tokens: seq<string>): Result<Json>
    decreases tokens
  {
    if tokens == [] then Ok(j)
    else
      var c := ChildAt(j, tokens[0]);
      if c.Err? then c else GetAt(c.value, tokens[1..])
  }

  /** What is done at the place a pointer leads to. */
  datatype Edit = Assign(value: Json) | AddChild(last: string, value: Json) | RemoveChild(last: string)

  /** operator[] of an array: the array grows with nulls up to the index. */
  function Grown(a: seq<Json>, i: nat): seq<Json> {
    if i < |a| then a else a + seq(i + 1 - |a|, _ => Null)
  }

  /**
   Below a string, number or boolean nothing is added and nothing removed, without an error: a release build does not
   check the assertion there.
   */
  function ApplyEdit(j: Json, e: Edit): Result<Json> {
    match e
    case Assign(value) => Ok(value)
    case AddChild(last, value) =>
      (match j
       case Null => Ok(Obj(map[last := value]))
       case Obj(m) => Ok(Obj(m[last := value]))
       case Arr(a) =>
         if last == "-" then Ok(Arr(a + [value]))
         else
           var n := Stoi(last);
           if n.Err? then Err(n.error)
           else if n.value < 0 || n.value > |a| then Err(IndexOutOfRange)
           else Ok(Arr(a[..n.value] + [value] + a[n.value..]))
       case _ => Ok(j))
    case RemoveChild(last) =>
      match j
      case Obj(m) => if last in m then Ok(Obj(m - {last})) else Err(KeyNotFound)
      case Arr(a) =>
        var n := Stoi(last);
        if n.Err? then Err(n.error)
        else if n.value < 0 || n.value >= |a| then Err(IndexOutOfRange)
        else Ok(Arr(a[..n.value] + a[n.value + 1..]))
      case _ => Ok(j)
  }

  /** at(pointer) used as a place to write to. */
  function ModifyChecked(j: Json, tokens: seq<string>, e: Edit): Result<Json>
    decreases tokens
  {
    if tokens == [] then ApplyEdit(j, e)
    else
      var c := ChildAt(j, tokens[0]);
      if c.Err? then c
      else
        var r := ModifyChecked(c.value, tokens[1..], e);
        if r.Err? then r else Ok(SetChild(j, tokens[0], r.value))
  }

  /** operator[](pointer): missing members and elements are created on the way. */
  function ModifyCreating(j: Json, tokens: seq<string>, e: Edit): Result<Json>
    decreases tokens
  {
    if tokens == [] then ApplyEdit(j, e)
    else
      var token := tokens[0];
      var node :=
        if j.Null? then (if AllDigits(token) || token == "-" then Arr([]) else Obj(map[])) else j;
      match node
      case Obj(m) =>
        var r := ModifyCreating(if token in m then m[token] else Null, tokens[1..], e);
        if r.Err? then r else Ok(Obj(m[token := r.value]))
      case Arr(a) =>
        var i := if token == "-" then Ok(|a|) else Index(token);
        if i.Err? then Err(i.error)
        else if i.value > INT_MAX && i.value > |a| then Err(NoMemory)
        else
          var grown := Grown(a, i.value);
          var r := ModifyCreating(grown[i.value], tokens[1..], e);
          if r.Err? then r else Ok(Arr(grown[i.value := r.value]))
      case _ => Err(Unresolved)
  }

  /** On an existing child the two walks take the same step. */
  lemma CreatingStep(j: Json, token: string, rest: seq<string>, e: Edit)
    requires ChildAt(j, token).Ok?
    ensures ModifyCreating(j, [token] + rest, e) ==
      (var r := ModifyCreating(ChildAt(j, token).value, rest, e);
       if r.Err? then r else Ok(SetChild(j, token, r.value)))
  {
    assert ([token] + rest)[1..] == rest;
  }

  lemma CheckedStep(j: Json, token: string, rest: seq<string>, e: Edit)
    requires ChildAt(j, token).Ok?
    ensures ModifyChecked(j, [token] + rest, e) ==
      (var r := ModifyChecked(ChildAt(j, token).value, rest, e);
       if r.Err? then r else Ok(SetChild(j, token, r.value)))
  {
    assert ([token] + rest)[1..] == rest;
  }

  /** The decimal numeral of an index leads to that element, as long as std::stoi can read it. */
  lemma ElementAt(a: seq<Json>, i: nat)
    requires i < |a|
    ensures ChildAt(Arr(a), Decimal(i)) == if i <= INT_MAX then Ok(a[i]) else Err(NumberOutOfRange)
    ensures i <= INT_MAX ==> forall v :: SetChild(Arr(a), Decimal(i), v) == Arr(a[i := v])
  {
    IndexOfDecimal(i);
  }

  lemma IndexOfDecimal(i: nat)
    ensures Decimal(i) != "-"
    ensures Index(Decimal(i)) == if i <= INT_MAX then Ok(i) else Err(NumberOutOfRange)
  {
    StoiOfDecimal(i);
    NoLeadingZero(i);
    assert IsDigit(Decimal(i)[0]);
  }

  /** Editing an array at the numeral of an index. */
  lemma EditElement(a: seq<Json>, i: nat, v: Json)
    ensures ApplyEdit(Arr(a), RemoveChild(Decimal(i))) ==
      if i > INT_MAX then Err(NumberOutOfRange)
      else if i >= |a| then Err(IndexOutOfRange) else Ok(Arr(a[..i] + a[i + 1..]))
    ensures ApplyEdit(Arr(a), AddChild(Decimal(i), v)) ==
      if i > INT_MAX then Err(NumberOutOfRange)
      else if i > |a| then Err(IndexOutOfRange) else Ok(Arr(a[..i] + [v] + a[i..]))
  {
    IndexOfDecimal(i);
    StoiOfDecimal(i);
  }

  lemma InsertAtEnd<T>(a: seq<T>, v: T)
    ensures a[..|a|] + [v] + a[|a|..] == a + [v]
  {
  }

  lemma RemoveLast<T>(a: seq<T>)
    requires a != []
    ensures a[..|a| - 1] + a[|a| - 1 + 1..] == a[..|a| - 1]
  {
  }

  lemma AppendElement(a: seq<Json>, v: Json)
    ensures ApplyEdit(Arr(a), AddChild(Decimal(|a|), v)) ==
      if |a| > INT_MAX then Err(NumberOutOfRange) else Ok(Arr(a + [v]))
  {
    EditElement(a, |a|, v);
    InsertAtEnd(a, v);
  }

  lemma RemoveLastElement(a: seq<Json>)
    requires a != []
    ensures ApplyEdit(Arr(a), RemoveChild(Decimal(|a| - 1))) ==
      if |a| - 1 > INT_MAX then Err(NumberOutOfRange) else Ok(Arr(a[..|a| - 1]))
  {
    EditElement(a, |a| - 1, Null);
    RemoveLast(a);
  }

  /** A list index needs no escaping. */
  lemma {:induction false} EscapeDigits(s: string)
    requires AllDigits(s)
    ensures EscapeChars(s) == s
  {
    if s != [] {
      assert s[0] in s && IsDigit(s[0]);
      EscapeDigits(s[1..]);
      assert s == [s[0]] + s[1..];
    }
  }

  lemma EscapeDecimal(i: nat)
    ensures Escape(Decimal(i)) == Decimal(i)
  {
    EscapeIsCharwise(Decimal(i));
    EscapeDigits(Decimal(i));
  }
}
