/**
 The items that CBOR and MessagePack share.
 */
module BinaryItems {
  import opened Json
  import opened Keys
  import opened BinaryHeads
  import opened Sequences

  type HeadReader = r: string -> Read<Head> | (forall s :: r(s).Got? ==> |r(s).rest| < |s|)
    witness (s => Failed(EndOfInput))

  /** A format: how heads are written and read, which bytes begin a string, and the bound of its sizes. */
  datatype Format = Format(write: Head -> string, read: HeadReader, beginsText: nat -> bool, limit: nat)

  const CBOR := Format(CborHead, ReadCborHead, BeginsCborText, Limit(Cbor))
  const MSGPACK := Format(MsgPackHead, ReadMsgPackHead, BeginsMsgPackText, Limit(MsgPack))

  function FormatOf(c: Coding): Format {
    if c.Cbor? then CBOR else MSGPACK
  }

  // -------------------------------------------------------------------------------------
  // Writing
  // -------------------------------------------------------------------------------------

  function WriteText(f: Format, s: string): string {
    f.write(Text(|s|)) + s
  }

  function Write(f: Format, j: Json): string
    decreases j, 1, 0
  {
    match j
    case Str(s) => WriteText(f, s)
    case Arr(a) => f.write(List(|a|)) + WriteElements(f, j, 0)
    case Obj(m) => f.write(Members(|m.Keys|)) + WriteMembers(f, j, Sorted(m.Keys))
    case _ => f.write(Value(j))
  }

  function WriteElements(f: Format, j: Json, i: nat): string
    requires j.Arr?
    decreases j, 0, |j.a| - i
  {
    if i >= |j.a| then [] else Write(f, j.a[i]) + WriteElements(f, j, i + 1)
  }

  function WriteMembers(f: Format, j: Json, keys: seq<string>): string
    requires j.Obj? && forall k :: k in keys ==> k in j.m
    decreases j, 0, |keys|
  {
    if keys == [] then []
    else WriteText(f, keys[0]) + Write(f, j.m[keys[0]]) + WriteMembers(f, j, keys[1..])
  }

  // -------------------------------------------------------------------------------------
  // Reading
  // -------------------------------------------------------------------------------------

  function ReadText(s: string, n: nat): (r: Read<string>)
    ensures r.Got? ==> |r.rest| <= |s|
  {
    if |s| < n then Failed(EndOfInput) else Got(s[..n], s[n..])
  }

  function ReadKey(f: Format, s: string): (r: Read<string>)
    ensures r.Got? ==> |r.rest| < |s|
  {
    if s == [] then Failed(EndOfInput)
    else if !f.beginsText(ByteOf(s[0])) then Failed(NotAString)
    else
      var h := f.read(s);
      if h.Failed? then Failed(h.error)
      else if h.value.Text? then ReadText(h.rest, h.value.n)
      else Failed(NotAString)
  }

  function ReadItem(f: Format, s: string): (r: Read<Json>)
    ensures r.Got? ==> |r.rest| < |s|
    decreases |s|, 0
  {
    var h := f.read(s);
    if h.Failed? then Failed(h.error)
    else
      match h.value
      case Value(j) => Got(j, h.rest)
      case Text(n) =>
        var t := ReadText(h.rest, n);
        if t.Failed? then Failed(t.error) else Got(Str(t.value), t.rest)
      case List(n) => ReadElements(f, h.rest, n, [])
      case Members(n) => ReadMembers(f, h.rest, n, map[])
  }

  function ReadElements(f: Format, s: string, n: nat, a: seq<Json>): (r: Read<Json>)
    ensures r.Got? ==> |r.rest| <= |s|
    decreases |s|, 1
  {
    if n == 0 then Got(Arr(a), s)
    else
      var item := ReadItem(f, s);
      if item.Failed? then item else ReadElements(f, item.rest, n - 1, a + [item.value])
  }

  datatype Member = Member(key: string, value: Json)

  function ReadMember(f: Format, s: string): (r: Read<Member>)
    ensures r.Got? ==> |r.rest| < |s|
    decreases |s|, 1
  {
    var key := ReadKey(f, s);
    if key.Failed? then Failed(key.error)
    else
      var item := ReadItem(f, key.rest);
      if item.Failed? then Failed(item.error) else Got(Member(key.value, item.value), item.rest)
  }

  /** A member that occurs again replaces the one that was there. */
  function ReadMembers(f: Format, s: string, n: nat, m: map<string, Json>): (r: Read<Json>)
    ensures r.Got? ==> |r.rest| <= |s|
    decreases |s|, 2
  {
    if n == 0 then Got(Obj(m), s)
    else
      var member := ReadMember(f, s);
      if member.Failed? then Failed(member.error)
      else ReadMembers(f, member.rest, n - 1, m[member.value.key := member.value.value])
  }

  // -------------------------------------------------------------------------------------
  // What comes back
  // -------------------------------------------------------------------------------------

  /** Positive signed numbers have become unsigned ones. */
  function Norm(j: Json): Json {
    match j
    case Int(i) => if i >= 0 then UInt(i) else j
    case Arr(a) => Arr(seq(|a|, k requires 0 <= k < |a| => Norm(a[k])))
    case Obj(m) => Obj(map k | k in m :: Norm(m[k]))
    case _ => j
  }

  /** The normal form equals the value, unless there is a NaN. */
  lemma {:induction false} NormEqual(j: Json)
    ensures Eq(Norm(j), j) <==> NaNFree(j)
  {
    match j
    case Arr(a) =>
      forall i | 0 <= i < |a| ensures Eq(Norm(a[i]), a[i]) <==> NaNFree(a[i]) { NormEqual(a[i]); }
    case Obj(m) =>
      forall k | k in m ensures Eq(Norm(m[k]), m[k]) <==> NaNFree(m[k]) { NormEqual(m[k]); }
    case _ =>
  }

  /** All strings, arrays and objects are short enough for their sizes to be written. */
  predicate Sized(limit: nat, j: Json) {
    match j
    case Str(s) => |s| < limit
    case Arr(a) => |a| < limit && forall i :: 0 <= i < |a| ==> Sized(limit, a[i])
    case Obj(m) => |m.Keys| < limit && forall k :: k in m ==> |k| < limit && Sized(limit, m[k])
    case _ => true
  }

  /** Heads of the right size survive, and no others are read. */
  ghost predicate HeadsSurvive(f: Format) {
    forall h, rest :: HeadFits(f.limit, h) ==> f.read(f.write(h) + rest) == Got(NormHead(h), rest)
  }

  ghost predicate TextsBegin(f: Format) {
    forall n: nat :: n < f.limit ==> f.write(Text(n)) != [] && f.beginsText(ByteOf(f.write(Text(n))[0]))
  }

  ghost predicate HeadsSized(f: Format) {
    forall s :: f.read(s).Got? ==> HeadFits(f.limit, f.read(s).value)
  }

  ghost predicate Sound(f: Format) {
    HeadsSurvive(f) && TextsBegin(f) && HeadsSized(f)
  }

  lemma CborHeadsSurvive()
    ensures HeadsSurvive(CBOR)
  {
    forall h, rest | HeadFits(CBOR.limit, h) ensures CBOR.read(CBOR.write(h) + rest) == Got(NormHead(h), rest) {
      CborHeadRead(h, rest);
    }
  }

  lemma CborHeadsSized()
    ensures HeadsSized(CBOR)
  {
    forall s | CBOR.read(s).Got? ensures HeadFits(CBOR.limit, CBOR.read(s).value) { CborHeadSized(s); }
  }

  lemma CborTextBegins(n: nat)
    requires n < Limit(Cbor)
    ensures CborHead(Text(n)) != [] && BeginsCborText(ByteOf(CborHead(Text(n))[0]))
  {
  }

  lemma CborTextsBegin()
    ensures TextsBegin(CBOR)
  {
    forall n: nat | n < CBOR.limit ensures CBOR.write(Text(n)) != [] && CBOR.beginsText(ByteOf(CBOR.write(Text(n))[0])) {
      CborTextBegins(n);
    }
  }

  lemma CborSound()
    ensures Sound(CBOR)
  {
    CborHeadsSurvive();
    CborHeadsSized();
    CborTextsBegin();
  }

  lemma MsgPackHeadsSurvive()
    ensures HeadsSurvive(MSGPACK)
  {
    forall h, rest | HeadFits(MSGPACK.limit, h) ensures MSGPACK.read(MSGPACK.write(h) + rest) == Got(NormHead(h), rest) {
      MsgPackHeadRead(h, rest);
    }
  }

  lemma MsgPackHeadsSized()
    ensures HeadsSized(MSGPACK)
  {
    forall s | MSGPACK.read(s).Got? ensures HeadFits(MSGPACK.limit, MSGPACK.read(s).value) { MsgPackHeadSized(s); }
  }

  lemma MsgPackTextBegins(n: nat)
    requires n < Limit(MsgPack)
    ensures MsgPackHead(Text(n)) != [] && BeginsMsgPackText(ByteOf(MsgPackHead(Text(n))[0]))
  {
  }

  lemma MsgPackTextsBegin()
    ensures TextsBegin(MSGPACK)
  {
    forall n: nat | n < MSGPACK.limit
      ensures MSGPACK.write(Text(n)) != [] && MSGPACK.beginsText(ByteOf(MSGPACK.write(Text(n))[0]))
    {
      MsgPackTextBegins(n);
    }
  }

  lemma MsgPackSound()
    ensures Sound(MSGPACK)
  {
    MsgPackHeadsSurvive();
    MsgPackHeadsSized();
    MsgPackTextsBegin();
  }

  // -------------------------------------------------------------------------------------
  // Items survive
  // -------------------------------------------------------------------------------------

  lemma HeadRead(f: Format, h: Head, rest: string)
    requires Sound(f) && HeadFits(f.limit, h)
    ensures f.read(f.write(h) + rest) == Got(NormHead(h), rest)
  {
  }

  lemma TextRead(f: Format, s: string, rest: string)
    requires Sound(f) && |s| < f.limit
    ensures f.read(WriteText(f, s) + rest) == Got(Text(|s|), s + rest)
    ensures ReadText(s + rest, |s|) == Got(s, rest)
  {
    HeadRead(f, Text(|s|), s + rest);
    Associates(f.write(Text(|s|)), s, rest);
    assert (s + rest)[..|s|] == s && (s + rest)[|s|..] == rest;
  }

  lemma KeyRead(f: Format, k: string, rest: string)
    requires Sound(f) && |k| < f.limit
    ensures ReadKey(f, WriteText(f, k) + rest) == Got(k, rest)
  {
    TextRead(f, k, rest);
    assert f.write(Text(|k|)) != [];
    assert (WriteText(f, k) + rest)[0] == f.write(Text(|k|))[0];
  }

  /** The elements read so far. */
  function NormUpTo(a: seq<Json>, i: nat): seq<Json>
    requires i <= |a|
  {
    seq(i, k requires 0 <= k < i => Norm(a[k]))
  }

  lemma NormUpToNext(a: seq<Json>, i: nat)
    requires i < |a|
    ensures NormUpTo(a, i) + [Norm(a[i])] == NormUpTo(a, i + 1)
  {
  }

  lemma NormUpToEnds(a: seq<Json>)
    ensures NormUpTo(a, 0) == [] && Arr(NormUpTo(a, |a|)) == Norm(Arr(a))
  {
    assert NormUpTo(a, |a|) == Norm(Arr(a)).a;
  }

  /** Reading the value back, with anything behind it. */
  ghost predicate Survives(f: Format, j: Json) {
    forall rest :: ReadItem(f, Write(f, j) + rest) == Got(Norm(j), rest)
  }

  ghost predicate AllSurvive(f: Format, a: seq<Json>) {
    forall k :: 0 <= k < |a| ==> Survives(f, a[k])
  }

  /** One element, given what reading the later ones gives. */
  lemma ElementStep(f: Format, j: Json, i: nat, rest: string, all: Read<Json>)
    requires j.Arr? && i < |j.a| && AllSurvive(f, j.a)
    requires ReadElements(f, WriteElements(f, j, i + 1) + rest, |j.a| - (i + 1), NormUpTo(j.a, i + 1)) == all
    ensures ReadElements(f, WriteElements(f, j, i) + rest, |j.a| - i, NormUpTo(j.a, i)) == all
  {
    Associates(Write(f, j.a[i]), WriteElements(f, j, i + 1), rest);
    NormUpToNext(j.a, i);
  }

  lemma NoElementsLeft(f: Format, j: Json, rest: string)
    requires j.Arr?
    ensures ReadElements(f, WriteElements(f, j, |j.a|) + rest, 0, NormUpTo(j.a, |j.a|)) ==
      Got(Arr(NormUpTo(j.a, |j.a|)), rest)
  {
    assert [] + rest == rest;
  }

  lemma {:induction false} ElementsRead(f: Format, j: Json, i: nat, rest: string, all: Read<Json>)
    requires j.Arr? && i <= |j.a| && all == Got(Arr(NormUpTo(j.a, |j.a|)), rest) && AllSurvive(f, j.a)
    ensures ReadElements(f, WriteElements(f, j, i) + rest, |j.a| - i, NormUpTo(j.a, i)) == all
    decreases |j.a| - i
  {
    if i == |j.a| {
      NoElementsLeft(f, j, rest);
    } else {
      ElementsRead(f, j, i + 1, rest, all);
      ElementStep(f, j, i, rest, all);
    }
  }

  /** The members read so far: all but those with the remaining keys. */
  function NormBut(m: map<string, Json>, keys: seq<string>): map<string, Json> {
    map k | k in m && k !in keys :: Norm(m[k])
  }

  lemma NormNext(m: map<string, Json>, keys: seq<string>)
    requires keys != [] && Distinct(keys) && keys[0] in m
    ensures NormBut(m, keys)[keys[0] := Norm(m[keys[0]])] == NormBut(m, keys[1..])
  {
    assert keys[0] !in keys[1..];
    assert forall k :: k in keys <==> k == keys[0] || k in keys[1..];
  }

  lemma NormButEnds(m: map<string, Json>)
    ensures NormBut(m, Sorted(m.Keys)) == map[] && Obj(NormBut(m, [])) == Norm(Obj(m))
  {
    assert NormBut(m, []) == Norm(Obj(m)).m;
  }

  lemma MemberParts(f: Format, j: Json, keys: seq<string>, rest: string)
    requires j.Obj? && keys != [] && forall k :: k in keys ==> k in j.m
    ensures WriteMembers(f, j, keys) + rest ==
      WriteText(f, keys[0]) + (Write(f, j.m[keys[0]]) + (WriteMembers(f, j, keys[1..]) + rest))
  {
    var x, y, z := WriteText(f, keys[0]), Write(f, j.m[keys[0]]), WriteMembers(f, j, keys[1..]);
    Associates(x + y, z, rest);
    Associates(x, y, z + rest);
  }

  /** One member, given that its value survives. */
  lemma MemberRead(f: Format, k: string, v: Json, rest: string)
    requires Sound(f) && |k| < f.limit && Survives(f, v)
    ensures ReadMember(f, WriteText(f, k) + (Write(f, v) + rest)) == Got(Member(k, Norm(v)), rest)
  {
    KeyRead(f, k, Write(f, v) + rest);
  }

  ghost predicate MembersSurvive(f: Format, m: map<string, Json>) {
    forall k :: k in m ==> |k| < f.limit && Survives(f, m[k])
  }

  lemma MemberStep(f: Format, j: Json, keys: seq<string>, rest: string, all: Read<Json>)
    requires Sound(f) && j.Obj? && keys != [] && Distinct(keys) && (forall k :: k in keys ==> k in j.m) && MembersSurvive(f, j.m)
    requires ReadMembers(f, WriteMembers(f, j, keys[1..]) + rest, |keys[1..]|, NormBut(j.m, keys[1..])) == all
    ensures ReadMembers(f, WriteMembers(f, j, keys) + rest, |keys|, NormBut(j.m, keys)) == all
  {
    MemberParts(f, j, keys, rest);
    MemberRead(f, keys[0], j.m[keys[0]], WriteMembers(f, j, keys[1..]) + rest);
    NormNext(j.m, keys);
  }

  lemma NoMembersLeft(f: Format, j: Json, rest: string)
    requires j.Obj?
    ensures ReadMembers(f, WriteMembers(f, j, []) + rest, 0, NormBut(j.m, [])) == Got(Obj(NormBut(j.m, [])), rest)
  {
    assert [] + rest == rest;
  }

  lemma {:induction false} MembersRead(f: Format, j: Json, keys: seq<string>, rest: string, all: Read<Json>)
    requires Sound(f) && j.Obj? && Distinct(keys) && (forall k :: k in keys ==> k in j.m) && MembersSurvive(f, j.m)
    requires all == Got(Obj(NormBut(j.m, [])), rest)
    ensures ReadMembers(f, WriteMembers(f, j, keys) + rest, |keys|, NormBut(j.m, keys)) == all
    decreases |keys|
  {
    if keys == [] {
      NoMembersLeft(f, j, rest);
    } else {
      MembersRead(f, j, keys[1..], rest, all);
      MemberStep(f, j, keys, rest, all);
    }
  }

  lemma ListHeadRead(f: Format, n: nat, body: string, rest: string)
    requires Sound(f) && n < f.limit
    ensures ReadItem(f, f.write(List(n)) + body + rest) == ReadElements(f, body + rest, n, [])
  {
    HeadRead(f, List(n), body + rest);
    Associates(f.write(List(n)), body, rest);
  }

  lemma ArrayRead(f: Format, j: Json, rest: string)
    requires Sound(f) && j.Arr? && |j.a| < f.limit && AllSurvive(f, j.a)
    ensures ReadItem(f, Write(f, j) + rest) == Got(Norm(j), rest)
  {
    ListHeadRead(f, |j.a|, WriteElements(f, j, 0), rest);
    NormUpToEnds(j.a);
    ElementsRead(f, j, 0, rest, Got(Arr(NormUpTo(j.a, |j.a|)), rest));
  }

  lemma MembersHeadRead(f: Format, n: nat, body: string, rest: string)
    requires Sound(f) && n < f.limit
    ensures ReadItem(f, f.write(Members(n)) + body + rest) == ReadMembers(f, body + rest, n, map[])
  {
    HeadRead(f, Members(n), body + rest);
    Associates(f.write(Members(n)), body, rest);
  }

  lemma ObjectRead(f: Format, j: Json, rest: string)
    requires Sound(f) && j.Obj? && |j.m.Keys| < f.limit && MembersSurvive(f, j.m)
    ensures ReadItem(f, Write(f, j) + rest) == Got(Norm(j), rest)
  {
    var keys := Sorted(j.m.Keys);
    MembersHeadRead(f, |keys|, WriteMembers(f, j, keys), rest);
    SortedDistinct(j.m.Keys);
    NormButEnds(j.m);
    MembersRead(f, j, keys, rest, Got(Obj(NormBut(j.m, [])), rest));
  }

  lemma PrimitiveRead(f: Format, j: Json, rest: string)
    requires Sound(f) && !j.Arr? && !j.Obj? && Sized(f.limit, j)
    ensures ReadItem(f, Write(f, j) + rest) == Got(Norm(j), rest)
  {
    if j.Str? {
      TextRead(f, j.s, rest);
    } else {
      HeadRead(f, Value(j), rest);
    }
  }

  lemma {:induction false} SizedSurvives(f: Format, j: Json)
    requires Sound(f) && Sized(f.limit, j)
    ensures Survives(f, j)
  {
    match j
    case Arr(a) =>
      forall k | 0 <= k < |a| ensures Survives(f, a[k]) { SizedSurvives(f, a[k]); }
      forall rest ensures ReadItem(f, Write(f, j) + rest) == Got(Norm(j), rest) { ArrayRead(f, j, rest); }
    case Obj(m) =>
      forall k | k in m ensures |k| < f.limit && Survives(f, m[k]) { SizedSurvives(f, m[k]); }
      forall rest ensures ReadItem(f, Write(f, j) + rest) == Got(Norm(j), rest) { ObjectRead(f, j, rest); }
    case _ =>
      forall rest ensures ReadItem(f, Write(f, j) + rest) == Got(Norm(j), rest) { PrimitiveRead(f, j, rest); }
  }

  // -------------------------------------------------------------------------------------
  // What is read is short enough to be written
  // -------------------------------------------------------------------------------------

  /** Every item that is read from at most size bytes is good. */
  ghost predicate ItemsGood(f: Format, size: nat, good: Json -> bool) {
    forall s :: |s| <= size && ReadItem(f, s).Got? ==> good(ReadItem(f, s).value)
  }

  predicate ElementsGood(a: seq<Json>, good: Json -> bool) {
    forall i :: 0 <= i < |a| ==> good(a[i])
  }

  predicate ArrayGood(r: Read<Json>, total: nat, good: Json -> bool) {
    r.Got? ==> r.value.Arr? && |r.value.a| == total && ElementsGood(r.value.a, good)
  }

  lemma NextItemGood(f: Format, size: nat, s: string, a: seq<Json>, good: Json -> bool)
    requires ItemsGood(f, size, good) && |s| <= size && ElementsGood(a, good) && ReadItem(f, s).Got?
    ensures ElementsGood(a + [ReadItem(f, s).value], good)
  {
  }

  lemma {:induction false} AllElements(f: Format, size: nat, s: string, n: nat, a: seq<Json>, total: nat, good: Json -> bool)
    requires ItemsGood(f, size, good) && |s| <= size && ElementsGood(a, good) && total == |a| + n
    ensures ArrayGood(ReadElements(f, s, n, a), total, good)
    decreases n
  {
    if n > 0 {
      var item := ReadItem(f, s);
      if item.Got? {
        NextItemGood(f, size, s, a, good);
        AllElements(f, size, item.rest, n - 1, a + [item.value], total, good);
      }
    }
  }

  lemma InsertCounts(m: map<string, Json>, k: string, v: Json)
    ensures |m[k := v].Keys| <= |m.Keys| + 1
  {
    assert m[k := v].Keys == m.Keys + {k};
  }

  ghost predicate PairsGood(f: Format, size: nat, good: (string, Json) -> bool) {
    forall s :: |s| <= size && ReadMember(f, s).Got? ==> good(ReadMember(f, s).value.key, ReadMember(f, s).value.value)
  }

  predicate MembersGood(m: map<string, Json>, good: (string, Json) -> bool) {
    forall k :: k in m ==> good(k, m[k])
  }

  predicate ObjectGood(r: Read<Json>, total: nat, good: (string, Json) -> bool) {
    r.Got? ==> r.value.Obj? && |r.value.m.Keys| <= total && MembersGood(r.value.m, good)
  }

  lemma NextPairGood(f: Format, size: nat, s: string, m: map<string, Json>, good: (string, Json) -> bool)
    requires PairsGood(f, size, good) && |s| <= size && MembersGood(m, good) && ReadMember(f, s).Got?
    ensures MembersGood(m[ReadMember(f, s).value.key := ReadMember(f, s).value.value], good)
  {
  }

  lemma {:induction false} AllMembers(f: Format, size: nat, s: string, n: nat, m: map<string, Json>, total: nat,
      good: (string, Json) -> bool)
    requires PairsGood(f, size, good) && |s| <= size && MembersGood(m, good) && |m.Keys| + n <= total
    ensures ObjectGood(ReadMembers(f, s, n, m), total, good)
    decreases n
  {
    if n > 0 {
      var member := ReadMember(f, s);
      if member.Got? {
        InsertCounts(m, member.value.key, member.value.value);
        NextPairGood(f, size, s, m, good);
        AllMembers(f, size, member.rest, n - 1, m[member.value.key := member.value.value], total, good);
      }
    }
  }

  lemma MemberSized(f: Format, s: string)
    requires Sound(f) && ReadMember(f, s).Got?
    ensures |ReadMember(f, s).value.key| < f.limit && Sized(f.limit, ReadMember(f, s).value.value)
    decreases |s|, 1
  {
    ReadSized(f, ReadKey(f, s).rest);
  }

  lemma {:induction false} ReadSized(f: Format, s: string)
    requires Sound(f) && ReadItem(f, s).Got?
    ensures Sized(f.limit, ReadItem(f, s).value)
    decreases |s|, 0
  {
    var h := f.read(s);
    match h.value
    case List(n) =>
      var good := x => Sized(f.limit, x);
      forall t | |t| <= |h.rest| && ReadItem(f, t).Got? ensures good(ReadItem(f, t).value) { ReadSized(f, t); }
      AllElements(f, |h.rest|, h.rest, n, [], n, good);
    case Members(n) =>
      var good := (k: string, x) => |k| < f.limit && Sized(f.limit, x);
      forall t | |t| <= |h.rest| && ReadMember(f, t).Got?
        ensures good(ReadMember(f, t).value.key, ReadMember(f, t).value.value) { MemberSized(f, t); }
      AllMembers(f, |h.rest|, h.rest, n, map[], n, good);
    case _ =>
  }

  lemma {:induction false} EqSized(limit: nat, x: Json, y: Json)
    requires Eq(x, y) && Sized(limit, x)
    ensures Sized(limit, y)
    decreases x
  {
    match (x, y)
    case (Arr(a), Arr(b)) =>
      forall i | 0 <= i < |a| ensures Sized(limit, b[i]) { EqSized(limit, a[i], b[i]); }
    case (Obj(m), Obj(n)) =>
      forall k | k in m ensures Sized(limit, n[k]) { EqSized(limit, m[k], n[k]); }
    case _ =>
  }

  // -------------------------------------------------------------------------------------
  // The round trips
  // -------------------------------------------------------------------------------------

  /** Reading what was written gives an equal value and stops exactly behind it, whatever follows. */
  ghost predicate ComesBack(f: Format, j: Json, rest: string) {
    var r := ReadItem(f, Write(f, j) + rest);
    r.Got? && Eq(r.value, j) && r.rest == rest
  }

  lemma RoundTrip(f: Format, j: Json, rest: string)
    requires Sound(f)
    ensures ComesBack(f, j, rest) <==> Sized(f.limit, j) && NaNFree(j)
    ensures Sized(f.limit, j) ==> ReadItem(f, Write(f, j) + rest) == Got(Norm(j), rest)
  {
    var r := ReadItem(f, Write(f, j) + rest);
    if Sized(f.limit, j) {
      SizedSurvives(f, j);
      NormEqual(j);
    }
    if r.Got? && Eq(r.value, j) {
      ReadSized(f, Write(f, j) + rest);
      EqSized(f.limit, r.value, j);
      EqIsNaNFree(r.value, j);
    }
  }

  /** from_cbor(to_cbor(j)) == j; every size that a std::size_t holds can be written. */
  lemma CborRoundTrip(j: Json, rest: string)
    ensures ComesBack(CBOR, j, rest) <==> Sized(0x1_0000_0000_0000_0000, j) && NaNFree(j)
  {
    CborSound();
    RoundTrip(CBOR, j, rest);
  }

  /** from_msgpack(to_msgpack(j)) == j exactly for sizes below 2^32. */
  lemma MsgPackRoundTrip(j: Json, rest: string)
    ensures ComesBack(MSGPACK, j, rest) <==> Sized(0x1_0000_0000, j) && NaNFree(j)
  {
    MsgPackSound();
    RoundTrip(MSGPACK, j, rest);
  }
}
