/**
 Flattening a value into an object of pointers, and rebuilding it.
 */
module JsonFlatten {
  import opened Integers
  import opened Json
  import opened JsonResult
  import opened JsonPointer
  import opened Numerals
  import opened JsonNavigate
  import opened Keys
  import opened Wrappers

  // -------------------------------------------------------------------------------------
  // The two operations
  // -------------------------------------------------------------------------------------

  function FlatInto(path: string, j: Json, result: map<string, Json>): map<string, Json>
    decreases j, 1, 0
  {
    match j
    case Arr(a) => if a == [] then result[path := Null] else FlatElements(path, j, 0, result)
    case Obj(m) => if m == map[] then result[path := Null] else FlatMembers(path, j, Sorted(m.Keys), result)
    case _ => result[path := j]
  }

  function FlatElements(path: string, j: Json, i: nat, result: map<string, Json>): map<string, Json>
    requires j.Arr?
    decreases j, 0, |j.a| - i
  {
    if i >= |j.a| then result
    else FlatElements(path, j, i + 1, FlatInto(path + "/" + Decimal(i), j.a[i], result))
  }

  function FlatMembers(path: string, j: Json, keys: seq<string>, result: map<string, Json>): map<string, Json>
    requires j.Obj? && forall k :: k in keys ==> k in j.m
    decreases j, 0, |keys|
  {
    if keys == [] then result
    else FlatMembers(path, j, keys[1..], FlatInto(path + "/" + Escape(keys[0]), j.m[keys[0]], result))
  }

  function Flatten(j: Json): Json {
    Obj(FlatInto("", j, map[]))
  }

  lemma FlatElementsStep(path: string, j: Json, i: nat, r: map<string, Json>)
    requires j.Arr? && i < |j.a|
    ensures FlatElements(path, j, i, r) ==
      FlatElements(path, j, i + 1, FlatInto(path + "/" + Decimal(i), j.a[i], r))
  {
  }

  lemma FlatMembersStep(path: string, j: Json, keys: seq<string>, i: nat, r: map<string, Json>)
    requires j.Obj? && i < |keys| && forall k :: k in keys ==> k in j.m
    ensures FlatMembers(path, j, keys[i..], r) ==
      FlatMembers(path, j, keys[i + 1..], FlatInto(path + "/" + Escape(keys[i]), j.m[keys[i]], r))
  {
    assert keys[i..][0] == keys[i] && keys[i..][1..] == keys[i + 1..];
  }

  /** The source's recursion, with its loops over elements and members. */
  method FlattenInto(path: string, j: Json, result: map<string, Json>) returns (r: map<string, Json>)
    ensures r == FlatInto(path, j, result)
    decreases j, 1
  {
    match j
    case Arr(a) =>
      if a == [] {
        return result[path := Null];
      }
      r := FlattenElements(path, j, result);
    case Obj(m) =>
      if m == map[] {
        return result[path := Null];
      }
      r := FlattenMembers(path, j, result);
    case _ => r := result[path := j];
  }

  method FlattenElements(path: string, j: Json, result: map<string, Json>) returns (r: map<string, Json>)
    requires j.Arr?
    ensures r == FlatElements(path, j, 0, result)
    decreases j, 0
  {
    r := result;
    for i := 0 to |j.a|
      invariant FlatElements(path, j, 0, result) == FlatElements(path, j, i, r)
    {
      FlatElementsStep(path, j, i, r);
      r := FlattenInto(path + "/" + Decimal(i), j.a[i], r);
    }
  }

  method FlattenMembers(path: string, j: Json, result: map<string, Json>) returns (r: map<string, Json>)
    requires j.Obj?
    ensures r == FlatMembers(path, j, Sorted(j.m.Keys), result)
    decreases j, 0
  {
    r := result;
    var keys := Sorted(j.m.Keys);
    assert keys[0..] == keys;
    for i := 0 to |keys|
      invariant FlatMembers(path, j, keys, result) == FlatMembers(path, j, keys[i..], r)
    {
      FlatMembersStep(path, j, keys, i, r);
      r := FlattenInto(path + "/" + Escape(keys[i]), j.m[keys[i]], r);
    }
  }

  /** get_and_create, and the assignment to the place it finds. */
  function Put(j: Json, tokens: seq<string>, v: Json): Result<Json>
    decreases tokens
  {
    if tokens == [] then Ok(v)
    else
      match (if j.Null? then (if tokens[0] == "0" then Arr([]) else Obj(map[])) else j)
      case Obj(m) => PutMember(m, tokens[0], Put(if tokens[0] in m then m[tokens[0]] else Null, tokens[1..], v))
      case Arr(a) =>
        var n := Stoi(tokens[0]);
        if n.Err? then Err(n.error)
        else
          var i := if n.value < 0 then n.value + 0x1_0000_0000_0000_0000 else n.value;
          if i > INT_MAX && i >= |a| then Err(NoMemory)
          else PutElement(a, i, Put(Grown(a, i)[i], tokens[1..], v))
      case _ => Err(NotUnflattenable)
  }

  function PutMember(m: map<string, Json>, k: string, r: Result<Json>): Result<Json> {
    if r.Err? then r else Ok(Obj(m[k := r.value]))
  }

  function PutElement(a: seq<Json>, i: nat, r: Result<Json>): Result<Json> {
    if r.Err? then r else Ok(Arr(Grown(a, i)[i := r.value]))
  }

  /** The members of a flat object, put in place one after the other. */
  function PutAll(j: Json, m: map<string, Json>, keys: seq<string>): Result<Json>
    requires forall k :: k in keys ==> k in m
    decreases |keys|
  {
    if keys == [] then Ok(j)
    else if !IsPrimitive(m[keys[0]]) then Err(NotPrimitive)
    else
      var tokens := Split(keys[0]);
      if tokens.Err? then Err(tokens.error)
      else
        var r := Put(j, tokens.value, m[keys[0]]);
        if r.Err? then r else PutAll(r.value, m, keys[1..])
  }

  function Unflatten(j: Json): Result<Json> {
    if j.Obj? then PutAll(Null, j.m, Sorted(j.m.Keys)) else Err(NotAnObject)
  }

  method UnflattenDocument(j: Json) returns (r: Result<Json>)
    ensures r == Unflatten(j)
  {
    if !j.Obj? {
      return Err(NotAnObject);
    }
    var result := Null;
    var keys := Sorted(j.m.Keys);
    assert keys[0..] == keys;
    for i := 0 to |keys|
      invariant Unflatten(j) == PutAll(result, j.m, keys[i..])
    {
      assert keys[i..][0] == keys[i] && keys[i..][1..] == keys[i + 1..];
      if !IsPrimitive(j.m[keys[i]]) {
        return Err(NotPrimitive);
      }
      var tokens := SplitText(keys[i]);
      if tokens.Err? {
        return Err(tokens.error);
      }
      var next := Put(result, tokens.value, j.m[keys[i]]);
      if next.Err? {
        return next;
      }
      result := next.value;
    }
    return Ok(result);
  }

  // -------------------------------------------------------------------------------------
  // Leaves
  // -------------------------------------------------------------------------------------

  predicate IsLeaf(j: Json, p: seq<string>)
    decreases p
  {
    if !IsContainer(j) then p == []
    else p != [] && Child(j, p[0]).Some? && IsLeaf(Child(j, p[0]).value, p[1..])
  }

  /** What is stored for a leaf. */
  function LeafAt(j: Json, p: seq<string>): Json
    requires IsLeaf(j, p)
    decreases p
  {
    if !IsContainer(j) then (if IsPrimitive(j) then j else Null) else LeafAt(Child(j, p[0]).value, p[1..])
  }

  lemma ChildOfDecimal(a: seq<Json>, i: nat)
    requires i < |a|
    ensures Child(Arr(a), Decimal(i)) == Some(a[i])
  {
    NumberOfDecimal(i);
  }

  lemma {:induction false} LeafExists(j: Json) returns (p: seq<string>)
    ensures IsLeaf(j, p)
    decreases j
  {
    if IsContainer(j) {
      match j
      case Arr(a) =>
        p := LeafExists(a[0]);
        ChildOfDecimal(a, 0);
        p := [Decimal(0)] + p;
      case Obj(m) =>
        var k :| k in m;
        p := LeafExists(m[k]);
        p := [k] + p;
      case _ =>
    } else {
      p := [];
    }
  }

  // -------------------------------------------------------------------------------------
  // Entries: leaves with their values
  // -------------------------------------------------------------------------------------

  datatype Entry = Entry(tokens: seq<string>, value: Json)

  function PutEntries(j: Json, es: seq<Entry>): Result<Json>
    decreases |es|
  {
    if es == [] then Ok(j)
    else
      var r := Put(j, es[0].tokens, es[0].value);
      if r.Err? then r else PutEntries(r.value, es[1..])
  }

  /** The entries below a token, seen from there. */
  function Below(es: seq<Entry>, token: string): seq<Entry> {
    if es == [] then []
    else if es[0].tokens != [] && es[0].tokens[0] == token
    then [Entry(es[0].tokens[1..], es[0].value)] + Below(es[1..], token)
    else Below(es[1..], token)
  }

  lemma {:induction false} BelowMembers(es: seq<Entry>, token: string, e: Entry)
    ensures e in Below(es, token) <==> Entry([token] + e.tokens, e.value) in es
  {
    if es != [] {
      BelowMembers(es[1..], token, e);
      var f := es[0];
      assert ([token] + e.tokens)[1..] == e.tokens;
      if f.tokens != [] && f.tokens[0] == token {
        assert f.tokens == [token] + f.tokens[1..];
      }
      assert es == [f] + es[1..];
    }
  }

  predicate Ascends(es: seq<Entry>) {
    es != [] ==>
      && (forall e :: e in es[1..] ==> Less(Text(es[0].tokens), Text(e.tokens)))
      && Ascends(es[1..])
  }

  lemma TextUnder(token: string, p: seq<string>, q: seq<string>)
    ensures Less(Text([token] + p), Text([token] + q)) <==> Less(Text(p), Text(q))
  {
    assert ([token] + p)[1..] == p && ([token] + q)[1..] == q;
    LessPrefix("/" + Escape(token), Text(p), Text(q));
  }

  lemma {:induction false} BelowAscends(es: seq<Entry>, token: string)
    requires Ascends(es)
    ensures Ascends(Below(es, token))
  {
    if es != [] {
      BelowAscends(es[1..], token);
      var f := es[0];
      if f.tokens != [] && f.tokens[0] == token {
        var below := Below(es, token);
        assert below[1..] == Below(es[1..], token);
        assert f.tokens == [token] + f.tokens[1..];
        forall e | e in below[1..] ensures Less(Text(f.tokens[1..]), Text(e.tokens)) {
          BelowMembers(es[1..], token, e);
          TextUnder(token, f.tokens[1..], e.tokens);
        }
      }
    }
  }

  ghost predicate OnlyLeaves(j: Json, es: seq<Entry>) {
    forall e :: e in es ==> IsLeaf(j, e.tokens) && e.value == LeafAt(j, e.tokens)
  }

  ghost predicate EveryLeaf(j: Json, es: seq<Entry>) {
    forall p :: IsLeaf(j, p) ==> Entry(p, LeafAt(j, p)) in es
  }

  /** The entries are the leaves of j with their values, in the order of the pointer texts. */
  ghost predicate Lists(j: Json, es: seq<Entry>) {
    Ascends(es) && OnlyLeaves(j, es) && EveryLeaf(j, es)
  }

  lemma ListsBelow(j: Json, es: seq<Entry>, token: string)
    requires Lists(j, es) && IsContainer(j) && Child(j, token).Some?
    ensures Lists(Child(j, token).value, Below(es, token))
  {
    var c := Child(j, token).value;
    BelowAscends(es, token);
    forall e | e in Below(es, token) ensures IsLeaf(c, e.tokens) && e.value == LeafAt(c, e.tokens) {
      BelowMembers(es, token, e);
      assert ([token] + e.tokens)[1..] == e.tokens;
    }
    forall p | IsLeaf(c, p) ensures Entry(p, LeafAt(c, p)) in Below(es, token) {
      var q := [token] + p;
      assert q[1..] == p;
      assert IsLeaf(j, q) && Entry(q, LeafAt(j, q)) in es;
      BelowMembers(es, token, Entry(p, LeafAt(c, p)));
    }
  }

  // -------------------------------------------------------------------------------------
  // Putting entries into a container puts those below a token into that child
  // -------------------------------------------------------------------------------------

  predicate AllBelow(es: seq<Entry>) {
    forall e :: e in es ==> e.tokens != []
  }

  function Member(m: map<string, Json>, k: string): Json {
    if k in m then m[k] else Null
  }

  ghost predicate MembersPut(r: Result<Json>, m: map<string, Json>, es: seq<Entry>) {
    && (r.Ok? <==> forall k :: PutEntries(Member(m, k), Below(es, k)).Ok?)
    && (r.Ok? ==> r.value.Obj? && forall k ::
          && (k in r.value.m <==> k in m || Below(es, k) != [])
          && (k in r.value.m ==> PutEntries(Member(m, k), Below(es, k)) == Ok(r.value.m[k])))
  }

  lemma {:induction false} PutIntoObject(m: map<string, Json>, es: seq<Entry>)
    requires AllBelow(es)
    ensures MembersPut(PutEntries(Obj(m), es), m, es)
    decreases |es|
  {
    if es != [] {
      var e := es[0];
      var t := e.tokens[0];
      var x := Put(Member(m, t), e.tokens[1..], e.value);
      assert Put(Obj(m), e.tokens, e.value) == PutMember(m, t, x);
      var below := Below(es, t);
      assert below[0] == Entry(e.tokens[1..], e.value) && below[1..] == Below(es[1..], t);
      if x.Ok? {
        var n := m[t := x.value];
        PutIntoObject(n, es[1..]);
        assert PutEntries(Member(m, t), below) == PutEntries(Member(n, t), Below(es[1..], t));
        assert forall k :: k != t ==> Below(es, k) == Below(es[1..], k) && Member(n, k) == Member(m, k);
      }
    }
  }

  function Element(a: seq<Json>, i: nat): Json {
    if i < |a| then a[i] else Null
  }

  /** The token is the numeral of an index below n. */
  predicate NamesElement(token: string, n: nat) {
    AllDigits(token) && NumberOf(token) < n && Decimal(NumberOf(token)) == token
  }

  predicate AllIndices(es: seq<Entry>, n: nat) {
    forall e :: e in es ==> e.tokens != [] && NamesElement(e.tokens[0], n)
  }

  /** std::stoi reads the indices of all entries. */
  ghost predicate StoiReaches(es: seq<Entry>) {
    forall i: nat :: Below(es, Decimal(i)) != [] ==> i <= INT_MAX
  }

  ghost predicate ElementsPut(r: Result<Json>, a: seq<Json>, es: seq<Entry>, n: nat) {
    && (r.Ok? <==> StoiReaches(es) && forall i: nat :: PutEntries(Element(a, i), Below(es, Decimal(i))).Ok?)
    && (r.Ok? ==> r.value.Arr? && |a| <= |r.value.a| && (|a| <= n ==> |r.value.a| <= n))
    && (r.Ok? ==> forall i: nat ::
          && (Below(es, Decimal(i)) != [] ==> i < |r.value.a|)
          && (i < |r.value.a| ==> PutEntries(Element(a, i), Below(es, Decimal(i))) == Ok(r.value.a[i])))
  }

  /** One entry below the numeral of an index. */
  lemma PutAtIndex(a: seq<Json>, i: nat, tokens: seq<string>, v: Json)
    requires tokens != [] && tokens[0] == Decimal(i)
    ensures Put(Arr(a), tokens, v) ==
      if i <= INT_MAX then PutElement(a, i, Put(Element(a, i), tokens[1..], v)) else Err(NumberOutOfRange)
  {
    StoiOfDecimal(i);
  }

  lemma ElementsAfter(a: seq<Json>, i: nat, v: Json)
    ensures var b := Grown(a, i)[i := v];
      && |b| == (if i < |a| then |a| else i + 1)
      && Element(b, i) == v && forall k: nat :: k != i ==> Element(b, k) == Element(a, k)
  {
  }

  lemma BelowOther(es: seq<Entry>, i: nat, k: nat)
    requires es != [] && es[0].tokens != [] && es[0].tokens[0] == Decimal(i)
    ensures Below(es, Decimal(k)) ==
      (if k == i then [Entry(es[0].tokens[1..], es[0].value)] else []) + Below(es[1..], Decimal(k))
  {
    if k != i && Decimal(k) == Decimal(i) {
      DecimalInjective(k, i);
    }
  }

  lemma {:induction false} PutIntoArray(a: seq<Json>, es: seq<Entry>, n: nat)
    requires AllIndices(es, n)
    ensures ElementsPut(PutEntries(Arr(a), es), a, es, n)
    decreases |es|
  {
    if es != [] {
      var e := es[0];
      assert e in es;
      var i := NumberOf(e.tokens[0]);
      PutAtIndex(a, i, e.tokens, e.value);
      forall k: nat ensures Below(es, Decimal(k)) ==
        (if k == i then [Entry(e.tokens[1..], e.value)] else []) + Below(es[1..], Decimal(k))
      {
        BelowOther(es, i, k);
      }
      var below := Below(es, Decimal(i));
      assert below[0] == Entry(e.tokens[1..], e.value) && below[1..] == Below(es[1..], Decimal(i));
      var x := Put(Element(a, i), e.tokens[1..], e.value);
      if i <= INT_MAX && x.Ok? {
        var b := Grown(a, i)[i := x.value];
        ElementsAfter(a, i, x.value);
        PutIntoArray(b, es[1..], n);
        assert PutEntries(Element(a, i), below) == PutEntries(Element(b, i), Below(es[1..], Decimal(i)));
        assert forall k: nat :: k != i ==> Below(es, Decimal(k)) == Below(es[1..], Decimal(k));
      }
    }
  }

  // -------------------------------------------------------------------------------------
  // Which values are rebuilt
  // -------------------------------------------------------------------------------------

  /** The pointers below a key k other than "0" come before those below "0". */
  predicate Before(k: string, nested: bool) {
    k == "" || k[0] < '/' || (nested && k[0] == '0' && |k| > 1 && k[1] < '/')
  }

  /** The first pointer that is unflattened goes below "0", which starts an array. */
  predicate ReadAsArray(m: map<string, Json>) {
    "0" in m && forall k :: k in m && k != "0" ==> !Before(k, IsContainer(m["0"]))
  }

  /** No empty container, no object that is read as an array, no array with more than 2^31 elements. */
  predicate Restorable(j: Json) {
    match j
    case Arr(a) => a != [] && |a| <= INT_MAX + 1 && forall i :: 0 <= i < |a| ==> Restorable(a[i])
    case Obj(m) => m != map[] && !ReadAsArray(m) && forall k :: k in m ==> Restorable(m[k])
    case _ => true
  }

  lemma TextOfChild(token: string, p: seq<string>)
    ensures Text([token] + p) == "/" + Escape(token) + Text(p)
  {
    assert ([token] + p)[1..] == p;
  }

  lemma EscapeFirst(s: string)
    requires s != []
    ensures Escape(s) != [] && Escape(s)[0] == if s[0] == '~' || s[0] == '/' then '~' else s[0]
    ensures s[0] != '~' && s[0] != '/' ==> Escape(s)[1..] == Escape(s[1..])
  {
    EscapeIsCharwise(s);
    EscapeIsCharwise(s[1..]);
  }

  lemma TextFirst(p: seq<string>)
    ensures p != [] ==> Text(p) != [] && Text(p)[0] == '/'
    ensures p == [] ==> Text(p) == []
  {
  }

  lemma EscapeZero()
    ensures Escape("0") == "0" && Decimal(0) == "0"
  {
    EscapeDecimal(0);
  }

  /** The order of the texts after the common slash. */
  lemma BeforeZero(k: string, q: seq<string>, p: seq<string>)
    requires k != "0"
    ensures Less(Escape(k) + Text(q), "0" + Text(p)) <==> Before(k, p != [])
  {
    var x, y := Escape(k) + Text(q), "0" + Text(p);
    TextFirst(q);
    TextFirst(p);
    assert y[0] == '0' && y[1..] == Text(p);
    if k == "" {
      assert Escape(k) == "" && x == Text(q);
    } else {
      EscapeFirst(k);
      assert x[0] == Escape(k)[0];
      if k[0] == '0' {
        assert |k| > 1 by { assert |k| == 1 ==> k == "0"; }
        EscapeFirst(k[1..]);
        assert x[1..] == Escape(k[1..]) + Text(q);
        assert x[1..][0] == Escape(k[1..])[0];
      }
    }
  }

  lemma KeyBeforeZero(k: string, q: seq<string>, p: seq<string>)
    requires k != "0"
    ensures Less(Text([k] + q), Text(["0"] + p)) <==> Before(k, p != [])
  {
    TextOfChild(k, q);
    TextOfChild("0", p);
    EscapeZero();
    LessPrefix("/", Escape(k) + Text(q), "0" + Text(p));
    assert "/" + Escape(k) + Text(q) == "/" + (Escape(k) + Text(q));
    assert "/" + "0" + Text(p) == "/" + ("0" + Text(p));
    BeforeZero(k, q, p);
  }

  /** Which leaf comes first. */
  lemma FirstLeaf(j: Json, es: seq<Entry>, e: Entry)
    requires Lists(j, es) && e in es
    ensures e == es[0] || Less(Text(es[0].tokens), Text(e.tokens))
  {
    assert es == [es[0]] + es[1..];
  }

  lemma LeafBelow(j: Json, es: seq<Entry>, token: string) returns (p: seq<string>)
    requires Lists(j, es) && IsContainer(j) && Child(j, token).Some?
    ensures IsLeaf(Child(j, token).value, p) && IsLeaf(j, [token] + p)
    ensures Entry([token] + p, LeafAt(j, [token] + p)) in es
  {
    p := LeafExists(Child(j, token).value);
    assert ([token] + p)[1..] == p;
  }

  lemma LessAntisymmetric(x: string, y: string)
    ensures !(Less(x, y) && Less(y, x))
  {
    if Less(x, y) && Less(y, x) {
      LessTransitive(x, y, x);
      LessIrreflexive(x);
    }
  }

  lemma FirstOfObject(m: map<string, Json>, es: seq<Entry>)
    requires Lists(Obj(m), es) && m != map[]
    ensures es != [] && es[0].tokens != [] && (es[0].tokens[0] == "0" <==> ReadAsArray(m))
  {
    var some :| some in m;
    var unused := LeafBelow(Obj(m), es, some);
    var head, tail := es[0].tokens[0], es[0].tokens[1..];
    assert es[0] in es && es[0].tokens == [head] + tail;
    if head == "0" {
      assert IsLeaf(m["0"], tail);
      forall k | k in m && k != "0" ensures !Before(k, IsContainer(m["0"])) {
        var q := LeafBelow(Obj(m), es, k);
        FirstLeaf(Obj(m), es, Entry([k] + q, LeafAt(Obj(m), [k] + q)));
        assert ([k] + q)[0] == k;
        KeyBeforeZero(k, q, tail);
        LessAntisymmetric(Text([k] + q), Text(es[0].tokens));
      }
    } else if "0" in m {
      var p := LeafBelow(Obj(m), es, "0");
      assert (["0"] + p)[0] == "0";
      FirstLeaf(Obj(m), es, Entry(["0"] + p, LeafAt(Obj(m), ["0"] + p)));
      KeyBeforeZero(head, tail, p);
      assert Before(head, IsContainer(m["0"]));
    }
  }

  lemma {:induction false} PositiveStart(n: nat)
    ensures n > 0 ==> Decimal(n)[0] > '0'
  {
    NoLeadingZero(n);
    assert Decimal(n)[0] in Decimal(n);
  }

  lemma FirstOfArray(a: seq<Json>, es: seq<Entry>)
    requires Lists(Arr(a), es) && a != []
    ensures es != [] && es[0].tokens != [] && es[0].tokens[0] == "0"
  {
    EscapeZero();
    ChildOfDecimal(a, 0);
    var p := LeafBelow(Arr(a), es, "0");
    assert es[0] in es;
    var first := es[0].tokens;
    if first[0] != "0" {
      assert (["0"] + p)[0] == "0";
      FirstLeaf(Arr(a), es, Entry(["0"] + p, LeafAt(Arr(a), ["0"] + p)));
      NothingBeforeZero(first, p);
    }
  }

  /** No other index comes before 0. */
  lemma NothingBeforeZero(first: seq<string>, p: seq<string>)
    requires first != [] && first[0] != "0" && IsIndex(first[0])
    ensures !Less(Text(first), Text(["0"] + p))
  {
    assert first == [first[0]] + first[1..];
    EscapeZero();
    KeyBeforeZero(first[0], first[1..], p);
    PositiveStart(NumberOf(first[0]));
  }

  // -------------------------------------------------------------------------------------
  // Rebuilding
  // -------------------------------------------------------------------------------------

  lemma SecondEntry(es: seq<Entry>)
    requires Ascends(es) && |es| > 1
    ensures es[0] in es && es[1] in es && Less(Text(es[0].tokens), Text(es[1].tokens))
  {
    assert es[1..][0] in es[1..];
  }

  /** A leaf is its own only entry. */
  lemma ListsLeaf(j: Json, es: seq<Entry>)
    requires Lists(j, es) && !IsContainer(j)
    ensures es == [Entry([], LeafAt(j, []))]
  {
    assert Entry([], LeafAt(j, [])) in es;
    LessIrreflexive([]);
    if |es| > 1 {
      SecondEntry(es);
    }
  }

  /** The first entry decides what a null becomes. */
  lemma PutIntoNull(es: seq<Entry>)
    requires es != [] && es[0].tokens != []
    ensures PutEntries(Null, es) == PutEntries(if es[0].tokens[0] == "0" then Arr([]) else Obj(map[]), es)
  {
  }

  lemma AllBelowContainer(j: Json, es: seq<Entry>)
    requires Lists(j, es) && IsContainer(j)
    ensures AllBelow(es)
    ensures j.Arr? ==> AllIndices(es, |j.a|)
  {
    forall e | e in es ensures e.tokens != [] && (j.Arr? ==> NamesElement(e.tokens[0], |j.a|)) {
      assert IsLeaf(j, e.tokens);
    }
  }

  lemma {:induction false} ArrayStays(a: seq<Json>, es: seq<Entry>)
    requires AllBelow(es)
    ensures PutEntries(Arr(a), es).Ok? ==> PutEntries(Arr(a), es).value.Arr?
    decreases |es|
  {
    if es != [] {
      var r := Put(Arr(a), es[0].tokens, es[0].value);
      if r.Ok? {
        ArrayStays(r.value.a, es[1..]);
      }
    }
  }

  lemma BelowHead(es: seq<Entry>, token: string) returns (e: Entry)
    requires Below(es, token) != []
    ensures e in es && e.tokens != [] && e.tokens[0] == token
  {
    var b := Below(es, token)[0];
    BelowMembers(es, token, b);
    e := Entry([token] + b.tokens, b.value);
  }

  /** An array is rebuilt from what its elements' entries rebuild. */
  ghost predicate ElementsRebuilt(a: seq<Json>, es: seq<Entry>, r: Result<Json>) {
    && (r.Ok? <==> |a| <= INT_MAX + 1 && forall i :: 0 <= i < |a| ==> PutEntries(Null, Below(es, Decimal(i))).Ok?)
    && (r.Ok? ==> r.value.Arr? && |r.value.a| == |a|)
    && (r.Ok? ==> forall i :: 0 <= i < |a| ==> PutEntries(Null, Below(es, Decimal(i))) == Ok(r.value.a[i]))
  }

  lemma BelowElements(a: seq<Json>, es: seq<Entry>, i: nat)
    requires Lists(Arr(a), es) && a != []
    ensures Below(es, Decimal(i)) != [] <==> i < |a|
  {
    if i < |a| {
      ChildOfDecimal(a, i);
      var p := LeafBelow(Arr(a), es, Decimal(i));
      BelowMembers(es, Decimal(i), Entry(p, LeafAt(Arr(a), [Decimal(i)] + p)));
    } else if Below(es, Decimal(i)) != [] {
      AllBelowContainer(Arr(a), es);
      NumberOfDecimal(i);
      var e := BelowHead(es, Decimal(i));
    }
  }

  lemma RebuildArray(a: seq<Json>, es: seq<Entry>)
    requires Lists(Arr(a), es) && a != []
    ensures ElementsRebuilt(a, es, PutEntries(Null, es))
  {
    FirstOfArray(a, es);
    PutIntoNull(es);
    AllBelowContainer(Arr(a), es);
    PutIntoArray([], es, |a|);
    forall i: nat ensures Below(es, Decimal(i)) != [] <==> i < |a| {
      BelowElements(a, es, i);
    }
    var r := PutEntries(Arr([]), es);
    assert forall i: nat :: Element([], i) == Null;
    assert StoiReaches(es) <==> |a| <= INT_MAX + 1 by {
      assert |a| > INT_MAX + 1 ==> Below(es, Decimal(INT_MAX + 1)) != [];
    }
    if r.Ok? {
      assert Below(es, Decimal(|a| - 1)) != [];
    }
  }

  ghost predicate MembersRebuilt(m: map<string, Json>, es: seq<Entry>, r: Result<Json>) {
    && (r.Ok? <==> forall k :: k in m ==> PutEntries(Null, Below(es, k)).Ok?)
    && (r.Ok? ==> r.value.Obj? && r.value.m.Keys == m.Keys)
    && (r.Ok? ==> forall k :: k in m ==> PutEntries(Null, Below(es, k)) == Ok(r.value.m[k]))
  }

  lemma BelowKeys(m: map<string, Json>, es: seq<Entry>, k: string)
    requires Lists(Obj(m), es) && m != map[]
    ensures Below(es, k) != [] <==> k in m
  {
    if k in m {
      var p := LeafBelow(Obj(m), es, k);
      BelowMembers(es, k, Entry(p, LeafAt(Obj(m), [k] + p)));
    } else if Below(es, k) != [] {
      var e := BelowHead(es, k);
    }
  }

  lemma RebuildObject(m: map<string, Json>, es: seq<Entry>)
    requires Lists(Obj(m), es) && m != map[]
    ensures var r := PutEntries(Null, es);
      if ReadAsArray(m) then r.Ok? ==> r.value.Arr? else MembersRebuilt(m, es, r)
  {
    FirstOfObject(m, es);
    PutIntoNull(es);
    AllBelowContainer(Obj(m), es);
    if ReadAsArray(m) {
      ArrayStays([], es);
    } else {
      PutIntoObject(map[], es);
      forall k ensures Below(es, k) != [] <==> k in m {
        BelowKeys(m, es, k);
      }
      assert forall k :: k !in m ==> PutEntries(Member(map[], k), Below(es, k)).Ok?;
    }
  }

  /** What is to be shown of a value, given what its entries rebuild. */
  ghost predicate Restored(j: Json, r: Result<Json>) {
    && (Restorable(j) ==> r == Ok(j))
    && (r.Ok? && Eq(r.value, j) ==> Restorable(j))
  }

  lemma LeafRestored(j: Json, es: seq<Entry>)
    requires Lists(j, es) && !IsContainer(j)
    ensures Restored(j, PutEntries(Null, es))
  {
    ListsLeaf(j, es);
    var v := LeafAt(j, []);
    assert [Entry([], v)][1..] == [];
    assert PutEntries(v, []) == Ok(v);
    assert PutEntries(Null, [Entry([], v)]) == Ok(v);
  }

  lemma ArrayRestored(a: seq<Json>, es: seq<Entry>)
    requires Lists(Arr(a), es) && a != []
    requires forall i :: 0 <= i < |a| ==> Restored(a[i], PutEntries(Null, Below(es, Decimal(i))))
    ensures Restored(Arr(a), PutEntries(Null, es))
  {
    RebuildArray(a, es);
    var r := PutEntries(Null, es);
    if Restorable(Arr(a)) {
      assert forall i :: 0 <= i < |a| ==> PutEntries(Null, Below(es, Decimal(i))) == Ok(a[i]);
      assert r.value.a == a;
    }
  }

  lemma ObjectRestored(m: map<string, Json>, es: seq<Entry>)
    requires Lists(Obj(m), es) && m != map[]
    requires forall k :: k in m ==> Restored(m[k], PutEntries(Null, Below(es, k)))
    ensures Restored(Obj(m), PutEntries(Null, es))
  {
    RebuildObject(m, es);
    var r := PutEntries(Null, es);
    if Restorable(Obj(m)) {
      assert forall k :: k in m ==> PutEntries(Null, Below(es, k)) == Ok(m[k]);
      assert r.value.m == m;
    }
  }

  /** Restorable values are rebuilt as they were, all others are not rebuilt as equal ones. */
  lemma {:induction false} Rebuild(j: Json, es: seq<Entry>)
    requires Lists(j, es)
    ensures Restored(j, PutEntries(Null, es))
    decreases j
  {
    if !IsContainer(j) {
      LeafRestored(j, es);
    } else {
      match j
      case Arr(a) =>
        forall i | 0 <= i < |a| ensures Restored(a[i], PutEntries(Null, Below(es, Decimal(i)))) {
          ChildOfDecimal(a, i);
          ListsBelow(j, es, Decimal(i));
          Rebuild(a[i], Below(es, Decimal(i)));
        }
        ArrayRestored(a, es);
      case Obj(m) =>
        forall k | k in m ensures Restored(m[k], PutEntries(Null, Below(es, k))) {
          ListsBelow(j, es, k);
          Rebuild(m[k], Below(es, k));
        }
        ObjectRestored(m, es);
      case _ =>
    }
  }

  // -------------------------------------------------------------------------------------
  // The entries of a flattened value are its leaves
  // -------------------------------------------------------------------------------------

  lemma TextInjective(p: seq<string>, q: seq<string>)
    requires Text(p) == Text(q)
    ensures p == q
  {
    SplitInvertsText(p);
    SplitInvertsText(q);
  }

  /** A leaf with its first token among the given ones. */
  predicate LeafUnder(j: Json, tokens: seq<string>, p: seq<string>) {
    IsLeaf(j, p) && p != [] && p[0] in tokens
  }

  ghost predicate IsLeafText(q: seq<string>, j: Json, s: string) {
    exists p :: IsLeaf(j, p) && s == Text(q + p)
  }

  /** The result of flattening j at the pointer q into acc. */
  ghost predicate FlatAdds(q: seq<string>, j: Json, acc: map<string, Json>, r: map<string, Json>) {
    && (forall p :: IsLeaf(j, p) ==> Text(q + p) in r && r[Text(q + p)] == LeafAt(j, p))
    && (forall s :: s in acc ==> s in r)
    && (forall s :: s in r ==> (s in acc && r[s] == acc[s]) || IsLeafText(q, j, s))
  }

  ghost predicate IsTextUnder(q: seq<string>, j: Json, tokens: seq<string>, s: string) {
    exists p :: LeafUnder(j, tokens, p) && s == Text(q + p)
  }

  /** The result of flattening some children of j. */
  ghost predicate FlatAddsUnder(q: seq<string>, j: Json, tokens: seq<string>, acc: map<string, Json>, r: map<string, Json>) {
    && (forall p :: LeafUnder(j, tokens, p) ==> Text(q + p) in r && r[Text(q + p)] == LeafAt(j, p))
    && (forall s :: s in acc ==> s in r)
    && (forall s :: s in r ==> (s in acc && r[s] == acc[s]) || IsTextUnder(q, j, tokens, s))
  }

  lemma ConcatInjective<T>(q: seq<T>, p: seq<T>, o: seq<T>)
    requires q + p == q + o
    ensures p == o
  {
    assert p == (q + p)[|q|..] && o == (q + o)[|q|..];
  }

  lemma TextsDiffer(q: seq<string>, j: Json, tokens: seq<string>, p: seq<string>)
    requires p != [] && p[0] !in tokens
    ensures !IsTextUnder(q, j, tokens, Text(q + p))
  {
    if o :| LeafUnder(j, tokens, o) && Text(q + p) == Text(q + o) {
      TextInjective(q + p, q + o);
      ConcatInjective(q, p, o);
    }
  }

  /** A leaf of one child, seen from the parent. */
  lemma ChildLeaf(q: seq<string>, j: Json, token: string, p: seq<string>)
    requires IsContainer(j) && Child(j, token).Some? && IsLeaf(Child(j, token).value, p)
    ensures LeafUnder(j, [token], [token] + p) && q + ([token] + p) == q + [token] + p
    ensures IsLeaf(j, [token] + p) && LeafAt(j, [token] + p) == LeafAt(Child(j, token).value, p)
  {
    assert ([token] + p)[1..] == p;
  }

  lemma ChildAdds(q: seq<string>, j: Json, token: string, acc: map<string, Json>, mid: map<string, Json>)
    requires IsContainer(j) && Child(j, token).Some?
    requires FlatAdds(q + [token], Child(j, token).value, acc, mid)
    ensures FlatAddsUnder(q, j, [token], acc, mid)
  {
    var c := Child(j, token).value;
    forall p | LeafUnder(j, [token], p) ensures Text(q + p) in mid && mid[Text(q + p)] == LeafAt(j, p) {
      assert p == [token] + p[1..] && IsLeaf(c, p[1..]);
      ChildLeaf(q, j, token, p[1..]);
    }
    forall s | s in mid && IsLeafText(q + [token], c, s) ensures IsTextUnder(q, j, [token], s) {
      var p :| IsLeaf(c, p) && s == Text(q + [token] + p);
      ChildLeaf(q, j, token, p);
    }
  }

  lemma FlatStep(
      q: seq<string>, j: Json, tokens: seq<string>, acc: map<string, Json>, mid: map<string, Json>, r: map<string, Json>)
    requires IsContainer(j) && tokens != [] && Child(j, tokens[0]).Some? && tokens[0] !in tokens[1..]
    requires FlatAdds(q + [tokens[0]], Child(j, tokens[0]).value, acc, mid)
    requires FlatAddsUnder(q, j, tokens[1..], mid, r)
    ensures FlatAddsUnder(q, j, tokens, acc, r)
  {
    ChildAdds(q, j, tokens[0], acc, mid);
    forall p | LeafUnder(j, tokens, p) ensures Text(q + p) in r && r[Text(q + p)] == LeafAt(j, p) {
      if p[0] in tokens[1..] {
        assert LeafUnder(j, tokens[1..], p);
      } else {
        assert p[0] == tokens[0] && LeafUnder(j, [tokens[0]], p);
        TextsDiffer(q, j, tokens[1..], p);
      }
    }
    forall s | s in r ensures (s in acc && r[s] == acc[s]) || IsTextUnder(q, j, tokens, s) {
      if IsTextUnder(q, j, tokens[1..], s) {
        var p :| LeafUnder(j, tokens[1..], p) && s == Text(q + p);
        assert LeafUnder(j, tokens, p);
      } else if IsTextUnder(q, j, [tokens[0]], s) {
        var p :| LeafUnder(j, [tokens[0]], p) && s == Text(q + p);
        assert LeafUnder(j, tokens, p);
      }
    }
  }

  lemma FlatAllUnder(q: seq<string>, j: Json, tokens: seq<string>, acc: map<string, Json>, r: map<string, Json>)
    requires IsContainer(j) && forall t :: Child(j, t).Some? ==> t in tokens
    requires FlatAddsUnder(q, j, tokens, acc, r)
    ensures FlatAdds(q, j, acc, r)
  {
    forall p | IsLeaf(j, p) ensures LeafUnder(j, tokens, p) {
    }
    forall s | IsTextUnder(q, j, tokens, s) ensures IsLeafText(q, j, s) {
    }
  }

  function IndexTokens(n: nat, i: nat): (ts: seq<string>)
    requires i <= n
    ensures |ts| == n - i && forall k :: 0 <= k < n - i ==> ts[k] == Decimal(i + k)
    decreases n - i
  {
    if i == n then [] else [Decimal(i)] + IndexTokens(n, i + 1)
  }

  lemma IndexTokensDistinct(n: nat, i: nat)
    requires i < n
    ensures Decimal(i) !in IndexTokens(n, i)[1..]
  {
    var later := IndexTokens(n, i + 1);
    forall k | 0 <= k < |later| ensures later[k] != Decimal(i) {
      if later[k] == Decimal(i) {
        DecimalInjective(i + 1 + k, i);
      }
    }
  }

  lemma {:induction false} FlatElementsAdds(q: seq<string>, j: Json, i: nat, acc: map<string, Json>)
    requires j.Arr? && i <= |j.a|
    ensures FlatAddsUnder(q, j, IndexTokens(|j.a|, i), acc, FlatElements(Text(q), j, i, acc))
    decreases j, 0, |j.a| - i
  {
    if i < |j.a| {
      var tokens, token := IndexTokens(|j.a|, i), Decimal(i);
      var mid := FlatInto(Text(q) + "/" + token, j.a[i], acc);
      EscapeDecimal(i);
      TextAppend(q, token);
      ChildOfDecimal(j.a, i);
      FlatIntoAdds(q + [token], j.a[i], acc);
      FlatElementsAdds(q, j, i + 1, mid);
      IndexTokensDistinct(|j.a|, i);
      FlatStep(q, j, tokens, acc, mid, FlatElements(Text(q), j, i, acc));
    }
  }

  lemma {:induction false} FlatMembersAdds(q: seq<string>, j: Json, keys: seq<string>, acc: map<string, Json>)
    requires j.Obj? && (forall k :: k in keys ==> k in j.m) && (forall i, k :: 0 <= i < k < |keys| ==> keys[i] != keys[k])
    ensures FlatAddsUnder(q, j, keys, acc, FlatMembers(Text(q), j, keys, acc))
    decreases j, 0, |keys|
  {
    if keys != [] {
      var mid := FlatInto(Text(q) + "/" + Escape(keys[0]), j.m[keys[0]], acc);
      TextAppend(q, keys[0]);
      FlatIntoAdds(q + [keys[0]], j.m[keys[0]], acc);
      FlatMembersAdds(q, j, keys[1..], mid);
      FlatStep(q, j, keys, acc, mid, FlatMembers(Text(q), j, keys, acc));
    }
  }

  lemma {:induction false} FlatIntoAdds(q: seq<string>, j: Json, acc: map<string, Json>)
    ensures FlatAdds(q, j, acc, FlatInto(Text(q), j, acc))
    decreases j, 1, 0
  {
    var r := FlatInto(Text(q), j, acc);
    if !IsContainer(j) {
      assert q + [] == q;
      assert IsLeaf(j, []) && IsLeafText(q, j, Text(q));
    } else if j.Arr? {
      FlatElementsAdds(q, j, 0, acc);
      forall t | Child(j, t).Some? ensures t in IndexTokens(|j.a|, 0) {
        assert IndexTokens(|j.a|, 0)[NumberOf(t)] == t;
      }
      FlatAllUnder(q, j, IndexTokens(|j.a|, 0), acc, r);
    } else {
      SortedDistinct(j.m.Keys);
      FlatMembersAdds(q, j, Sorted(j.m.Keys), acc);
      FlatAllUnder(q, j, Sorted(j.m.Keys), acc, r);
    }
  }

  /** The entries of a flat object for some of its keys. */
  function Entries(f: map<string, Json>, keys: seq<string>): seq<Entry>
    requires forall k :: k in keys ==> k in f && Split(k).Ok?
  {
    if keys == [] then [] else [Entry(Split(keys[0]).value, f[keys[0]])] + Entries(f, keys[1..])
  }

  lemma {:induction false} EntriesMembers(f: map<string, Json>, keys: seq<string>, e: Entry)
    requires forall k :: k in keys ==> k in f && Split(k).Ok?
    ensures e in Entries(f, keys) <==> Text(e.tokens) in keys && f[Text(e.tokens)] == e.value
  {
    if keys != [] {
      EntriesMembers(f, keys[1..], e);
      TextInvertsSplit(keys[0]);
      SplitInvertsText(e.tokens);
      assert keys == [keys[0]] + keys[1..];
    }
  }

  lemma {:induction false} EntriesAscend(f: map<string, Json>, keys: seq<string>)
    requires forall k :: k in keys ==> k in f && Split(k).Ok?
    requires forall i, k :: 0 <= i < k < |keys| ==> Less(keys[i], keys[k])
    ensures Ascends(Entries(f, keys))
  {
    if keys != [] {
      EntriesAscend(f, keys[1..]);
      TextInvertsSplit(keys[0]);
      forall e | e in Entries(f, keys[1..]) ensures Less(keys[0], Text(e.tokens)) {
        EntriesMembers(f, keys[1..], e);
        var i :| 0 <= i < |keys[1..]| && keys[1..][i] == Text(e.tokens);
        assert keys[1 + i] == Text(e.tokens);
      }
    }
  }

  lemma {:induction false} PutAllIsPutEntries(j: Json, f: map<string, Json>, keys: seq<string>)
    requires forall k :: k in keys ==> k in f && Split(k).Ok? && IsPrimitive(f[k])
    ensures PutAll(j, f, keys) == PutEntries(j, Entries(f, keys))
    decreases |keys|
  {
    if keys != [] {
      var r := Put(j, Split(keys[0]).value, f[keys[0]]);
      if r.Ok? {
        PutAllIsPutEntries(r.value, f, keys[1..]);
      }
    }
  }

  lemma {:induction false} LeafIsPrimitive(j: Json, p: seq<string>)
    requires IsLeaf(j, p)
    ensures IsPrimitive(LeafAt(j, p))
    decreases p
  {
    if IsContainer(j) {
      LeafIsPrimitive(Child(j, p[0]).value, p[1..]);
    }
  }

  ghost predicate LeavesStored(j: Json, f: map<string, Json>) {
    forall p :: IsLeaf(j, p) ==> Text(p) in f && f[Text(p)] == LeafAt(j, p)
  }

  ghost predicate KeysAreLeaves(j: Json, f: map<string, Json>) {
    forall k :: k in f ==> Split(k).Ok? && IsLeaf(j, Split(k).value)
  }

  /** A flat object holds exactly the leaves of j at their texts. */
  ghost predicate IsFlat(j: Json, f: map<string, Json>) {
    LeavesStored(j, f) && KeysAreLeaves(j, f)
  }

  lemma KeyIsLeaf(j: Json, f: map<string, Json>, k: string)
    requires FlatAdds([], j, map[], f) && k in f
    ensures Split(k).Ok? && IsLeaf(j, Split(k).value)
  {
    assert IsLeafText([], j, k);
    var p :| IsLeaf(j, p) && k == Text([] + p);
    EmptyPrefix(p);
    SplitInvertsText(p);
  }

  lemma EmptyPrefix(p: seq<string>)
    ensures [] + p == p
  {
  }

  lemma LeafIsKey(j: Json, f: map<string, Json>, p: seq<string>)
    requires FlatAdds([], j, map[], f) && IsLeaf(j, p)
    ensures Text(p) in f && f[Text(p)] == LeafAt(j, p)
  {
    EmptyPrefix(p);
  }

  lemma AllLeavesStored(j: Json, f: map<string, Json>)
    requires FlatAdds([], j, map[], f)
    ensures LeavesStored(j, f)
  {
    forall p | IsLeaf(j, p) ensures Text(p) in f && f[Text(p)] == LeafAt(j, p) {
      LeafIsKey(j, f, p);
    }
  }

  lemma AllKeysAreLeaves(j: Json, f: map<string, Json>)
    requires FlatAdds([], j, map[], f)
    ensures KeysAreLeaves(j, f)
  {
    forall k | k in f ensures Split(k).Ok? && IsLeaf(j, Split(k).value) {
      KeyIsLeaf(j, f, k);
    }
  }

  lemma FlattenIsFlat(j: Json)
    ensures IsFlat(j, Flatten(j).m)
  {
    FlatIntoAdds([], j, map[]);
    AllLeavesStored(j, Flatten(j).m);
    AllKeysAreLeaves(j, Flatten(j).m);
  }

  lemma EntryIsLeaf(j: Json, f: map<string, Json>, e: Entry)
    requires IsFlat(j, f) && e in Entries(f, Sorted(f.Keys))
    ensures IsLeaf(j, e.tokens) && e.value == LeafAt(j, e.tokens)
  {
    EntriesMembers(f, Sorted(f.Keys), e);
    SplitInvertsText(e.tokens);
  }

  lemma LeafIsEntry(j: Json, f: map<string, Json>, p: seq<string>)
    requires IsFlat(j, f) && IsLeaf(j, p)
    ensures Entry(p, LeafAt(j, p)) in Entries(f, Sorted(f.Keys))
  {
    EntriesMembers(f, Sorted(f.Keys), Entry(p, LeafAt(j, p)));
  }

  lemma EntriesAreLeaves(j: Json, f: map<string, Json>)
    requires IsFlat(j, f)
    ensures OnlyLeaves(j, Entries(f, Sorted(f.Keys)))
  {
    forall e | e in Entries(f, Sorted(f.Keys)) ensures IsLeaf(j, e.tokens) && e.value == LeafAt(j, e.tokens) {
      EntryIsLeaf(j, f, e);
    }
  }

  lemma LeavesAreEntries(j: Json, f: map<string, Json>)
    requires IsFlat(j, f)
    ensures EveryLeaf(j, Entries(f, Sorted(f.Keys)))
  {
    forall p | IsLeaf(j, p) ensures Entry(p, LeafAt(j, p)) in Entries(f, Sorted(f.Keys)) {
      LeafIsEntry(j, f, p);
    }
  }

  lemma FlatEntries(j: Json, f: map<string, Json>)
    requires IsFlat(j, f)
    ensures Lists(j, Entries(f, Sorted(f.Keys)))
  {
    SortedAscends(f.Keys);
    EntriesAscend(f, Sorted(f.Keys));
    EntriesAreLeaves(j, f);
    LeavesAreEntries(j, f);
  }

  lemma FlatIsPrimitive(j: Json, f: map<string, Json>, k: string)
    requires IsFlat(j, f) && k in f
    ensures IsPrimitive(f[k])
  {
    LeafIsPrimitive(j, Split(k).value);
    TextInvertsSplit(k);
  }

  /** Unflattening a flattened value puts its leaves in the order of their texts. */
  lemma FlattenLists(j: Json) returns (es: seq<Entry>)
    ensures Lists(j, es) && Unflatten(Flatten(j)) == PutEntries(Null, es)
  {
    var f := Flatten(j).m;
    FlattenIsFlat(j);
    es := Entries(f, Sorted(f.Keys));
    FlatEntries(j, f);
    forall k | k in f ensures IsPrimitive(f[k]) {
      FlatIsPrimitive(j, f, k);
    }
    PutAllIsPutEntries(Null, f, Sorted(f.Keys));
  }

  /** j.flatten().unflatten() == j, and exactly when; what is restored is restored identically. */
  lemma UnflattenInvertsFlatten(j: Json)
    ensures var r := Unflatten(Flatten(j));
      (r.Ok? && Eq(r.value, j)) <==> (Restorable(j) && NaNFree(j))
    ensures Restorable(j) ==> Unflatten(Flatten(j)) == Ok(j)
  {
    var es := FlattenLists(j);
    Rebuild(j, es);
    EqReflexive(j);
  }

  // -------------------------------------------------------------------------------------
  // The simple sufficient condition, and an object that is not restored
  // -------------------------------------------------------------------------------------

  predicate Plain(j: Json) {
    match j
    case Arr(a) => a != [] && |a| <= INT_MAX + 1 && forall i :: 0 <= i < |a| ==> Plain(a[i])
    case Obj(m) => m != map[] && "0" !in m && forall k :: k in m ==> Plain(m[k])
    case _ => true
  }

  lemma {:induction false} PlainIsRestorable(j: Json)
    requires Plain(j)
    ensures Restorable(j)
  {
    match j
    case Arr(a) =>
      forall i | 0 <= i < |a| ensures Restorable(a[i]) { PlainIsRestorable(a[i]); }
    case Obj(m) =>
      forall k | k in m ensures Restorable(m[k]) { PlainIsRestorable(m[k]); }
    case _ =>
  }

  /** The key "0" on its own comes back as an array index. */
  lemma ZeroKeyIsLost(v: Json)
    requires IsPrimitive(v) && NaNFree(v)
    ensures var j := Obj(map["0" := v]);
      var r := Unflatten(Flatten(j));
      !(r.Ok? && Eq(r.value, j))
  {
    var j := Obj(map["0" := v]);
    assert ReadAsArray(j.m);
    UnflattenInvertsFlatten(j);
  }
}
