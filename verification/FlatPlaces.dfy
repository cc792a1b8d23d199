/**
 What storing one value at a pointer does to the others (get_and_create and the assignment behind it).
 */
module FlatPlaces {
  import opened Integers
  import opened Json
  import opened JsonResult
  import opened Numerals
  import opened JsonNavigate
  import opened JsonFlatten
  import opened Wrappers

  /** What std::stoi makes of a token, as an unsigned index. */
  function PlaceOf(token: string): Option<nat> {
    match Stoi(token)
    case Err(_) => None
    case Ok(n) => Some(if n < 0 then n + 0x1_0000_0000_0000_0000 else n)
  }

  /** The child that a token leads to. */
  function Step(j: Json, token: string): Option<Json> {
    match j
    case Obj(m) => if token in m then Some(m[token]) else None
    case Arr(a) => var i := PlaceOf(token); if i.Some? && i.value < |a| then Some(a[i.value]) else None
    case _ => None
  }

  function Find(j: Json, p: seq<string>): Option<Json>
    decreases p
  {
    if p == [] then Some(j)
    else
      var c := Step(j, p[0]);
      if c.None? then None else Find(c.value, p[1..])
  }

  /** Null becomes an array for the token 0, and an object for every other one. */
  function Founded(j: Json, token: string): Json {
    if !j.Null? then j else if token == "0" then Arr([]) else Obj(map[])
  }

  /** The token t leads to the child that is stored at s. */
  predicate SameStep(j: Json, s: string, t: string) {
    if Founded(j, s).Arr? then PlaceOf(s) == PlaceOf(t) else s == t
  }

  /** The pointers part at some value on the way. */
  predicate Apart(j: Json, p: seq<string>, q: seq<string>)
    decreases p
  {
    p != [] && q != []
    && if SameStep(j, p[0], q[0]) then Step(j, p[0]).Some? && Apart(Step(j, p[0]).value, p[1..], q[1..])
       else true
  }

  /** Nothing is created below a string, number or boolean, nor in an array at a token that is no index of reasonable size. */
  predicate Refuses(j: Json, token: string) {
    match j
    case Null => false
    case Obj(_) => false
    case Arr(a) => PlaceOf(token).None? || (PlaceOf(token).value > INT_MAX && PlaceOf(token).value >= |a|)
    case _ => true
  }

  /** At some value on the way. */
  ghost predicate IsBlocked(j: Json, p: seq<string>) {
    exists i :: 0 <= i < |p| && Find(j, p[..i]).Some? && Refuses(Find(j, p[..i]).value, p[i])
  }

  lemma BlockedHere(j: Json, p: seq<string>)
    requires p != [] && Refuses(j, p[0])
    ensures IsBlocked(j, p)
  {
    assert p[..0] == [];
  }

  lemma FindBelow(j: Json, p: seq<string>, i: nat)
    requires 0 < i <= |p| && Step(j, p[0]).Some?
    ensures Find(j, p[..i]) == Find(Step(j, p[0]).value, p[1..][..i - 1])
  {
    assert p[..i][1..] == p[1..][..i - 1] && p[..i][0] == p[0];
  }

  /** Below the first token. */
  lemma BlockedBelow(j: Json, p: seq<string>)
    requires p != [] && !Refuses(j, p[0])
    ensures IsBlocked(j, p) <==> Step(j, p[0]).Some? && IsBlocked(Step(j, p[0]).value, p[1..])
  {
    if IsBlocked(j, p) {
      var i :| 0 <= i < |p| && Find(j, p[..i]).Some? && Refuses(Find(j, p[..i]).value, p[i]);
      assert p[..0] == [];
      assert p[..i][0] == p[0];
      FindBelow(j, p, i);
      assert p[1..][i - 1] == p[i];
    }
    if Step(j, p[0]).Some? && IsBlocked(Step(j, p[0]).value, p[1..]) {
      var c, q := Step(j, p[0]).value, p[1..];
      var i :| 0 <= i < |q| && Find(c, q[..i]).Some? && Refuses(Find(c, q[..i]).value, q[i]);
      FindBelow(j, p, i + 1);
      assert p[i + 1] == q[i];
    }
  }

  /** The value that storing goes on with. */
  function Under(j: Json, token: string): Json {
    match j
    case Obj(m) => if token in m then m[token] else Null
    case Arr(a) => if Step(j, token).Some? then Step(j, token).value else Null
    case _ => Null
  }

  /** The child c is stored in r, and the other children are those of j; an array grows with nulls. */
  ghost predicate Stores(j: Json, token: string, c: Json, r: Json) {
    && Step(r, token) == Some(c)
    && forall t :: !SameStep(j, token, t) ==> Step(r, t) == Step(j, t) || (Step(j, t) == None && Step(r, t) == Some(Null))
  }

  /** One step: refused, or what the rest of the way gives is put in place of the child. */
  ghost predicate PutsOne(j: Json, p: seq<string>, v: Json)
    requires p != []
  {
    var r, c := Put(j, p, v), Put(Under(j, p[0]), p[1..], v);
    if Refuses(j, p[0]) || c.Err? then r.Err? else r.Ok? && Stores(j, p[0], c.value, r.value)
  }

  lemma PutInObject(m: map<string, Json>, p: seq<string>, v: Json)
    requires p != []
    ensures PutsOne(Obj(m), p, v)
  {
  }

  lemma GrownStores(a: seq<Json>, token: string, i: nat, c: Json)
    requires PlaceOf(token) == Some(i)
    ensures Stores(Arr(a), token, c, Arr(Grown(a, i)[i := c]))
  {
  }

  lemma PutInArray(a: seq<Json>, p: seq<string>, v: Json)
    requires p != []
    ensures PutsOne(Arr(a), p, v)
  {
    var i := PlaceOf(p[0]);
    if i.Some? && !Refuses(Arr(a), p[0]) {
      assert Grown(a, i.value)[i.value] == Under(Arr(a), p[0]);
      var c := Put(Under(Arr(a), p[0]), p[1..], v);
      if c.Ok? {
        GrownStores(a, p[0], i.value, c.value);
      }
    }
  }

  lemma PutInNull(p: seq<string>, v: Json)
    requires p != []
    ensures PutsOne(Null, p, v)
  {
    if p[0] == "0" {
      PutInArray([], p, v);
      ZeroIsPlace();
    } else {
      PutInObject(map[], p, v);
    }
  }

  lemma ZeroIsPlace()
    ensures PlaceOf("0") == Some(0)
  {
    StoiOfDecimal(0);
    assert Decimal(0) == "0";
  }

  lemma PutStep(j: Json, p: seq<string>, v: Json)
    requires p != []
    ensures PutsOne(j, p, v)
  {
    match j
    case Null => PutInNull(p, v);
    case Obj(m) => PutInObject(m, p, v);
    case Arr(a) => PutInArray(a, p, v);
    case _ =>
  }

  /** Below null nothing is refused. */
  lemma {:induction false} NullTakesAll(p: seq<string>, v: Json)
    ensures Put(Null, p, v).Ok?
    decreases |p|
  {
    if p != [] {
      PutStep(Null, p, v);
      NullTakesAll(p[1..], v);
    }
  }

  /** Storing fails exactly when the way is blocked. */
  lemma {:induction false} StoresUnlessBlocked(j: Json, p: seq<string>, v: Json)
    ensures Put(j, p, v).Ok? <==> !IsBlocked(j, p)
    decreases |p|
  {
    if p != [] {
      PutStep(j, p, v);
      if Refuses(j, p[0]) {
        BlockedHere(j, p);
      } else {
        BlockedBelow(j, p);
        if Step(j, p[0]).Some? {
          StoresUnlessBlocked(Step(j, p[0]).value, p[1..], v);
        } else {
          NullTakesAll(p[1..], v);
        }
      }
    }
  }

  /** What is stored is found there. */
  lemma {:induction false} StoredIsFound(j: Json, p: seq<string>, v: Json)
    requires Put(j, p, v).Ok?
    ensures Find(Put(j, p, v).value, p) == Some(v)
    decreases |p|
  {
    if p != [] {
      PutStep(j, p, v);
      StoredIsFound(Under(j, p[0]), p[1..], v);
    }
  }

  /** Everything at pointers that part from this one stays, and nothing comes but the nulls that fill an array. */
  lemma {:induction false} OthersStay(j: Json, p: seq<string>, v: Json, q: seq<string>)
    requires Put(j, p, v).Ok? && Apart(j, p, q)
    ensures var r := Put(j, p, v).value;
      Find(r, q) == Find(j, q) || (Find(j, q) == None && Find(r, q) == Some(Null))
    decreases |p|
  {
    PutStep(j, p, v);
    var r := Put(j, p, v).value;
    if SameStep(j, p[0], q[0]) {
      OthersStay(Step(j, p[0]).value, p[1..], v, q[1..]);
      SameChild(j, p[0], q[0]);
    } else if Step(r, q[0]) != Step(j, q[0]) {
      NothingBelowNull(q[1..]);
    }
  }

  lemma SameChild(j: Json, s: string, t: string)
    requires SameStep(j, s, t) && !j.Null?
    ensures Step(j, s) == Step(j, t)
  {
  }

  lemma NothingBelowNull(q: seq<string>)
    ensures q != [] ==> Find(Null, q) == None
  {
  }
}
