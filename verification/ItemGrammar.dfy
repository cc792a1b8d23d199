/**
 CBOR and MessagePack items: the encodings of a value, and that they are what is read.
 */
module ItemGrammar {
  import opened Json
  import opened Keys
  import opened BinaryHeads
  import opened BinaryForms
  import opened BinaryItems
  import opened Sequences

  // -------------------------------------------------------------------------------------
  // The grammar
  // -------------------------------------------------------------------------------------

  datatype Tree = Leaf(j: Primitive) | Chars(s: string) | Array(elements: seq<Tree>) | Object(entries: seq<Entry>)

  datatype Entry = Entry(key: string, value: Tree)

  /** A size and so many bytes. */
  ghost predicate EncodesText(c: Coding, x: string, s: string) {
    exists h :: IsHead(c, h, Text(|s|)) && x == h + s
  }

  /** Containers give the number of their elements, or of their members: each is a key and a value. */
  ghost predicate Encodes(c: Coding, x: string, t: Tree)
    decreases t
  {
    match t
    case Leaf(j) => IsHead(c, x, Value(j))
    case Chars(s) => EncodesText(c, x, s)
    case Array(es) => exists h, y :: IsHead(c, h, List(|es|)) && x == h + y && EncodesAll(c, y, es)
    case Object(ms) => exists h, y :: IsHead(c, h, Members(|ms|)) && x == h + y && EncodesEntries(c, y, ms)
  }

  ghost predicate EncodesAll(c: Coding, x: string, es: seq<Tree>)
    decreases es
  {
    if es == [] then x == "" else exists e, more :: x == e + more && Encodes(c, e, es[0]) && EncodesAll(c, more, es[1..])
  }

  ghost predicate EncodesEntries(c: Coding, x: string, ms: seq<Entry>)
    decreases ms
  {
    if ms == [] then x == ""
    else exists k, e, more ::
      x == k + (e + more) && EncodesText(c, k, ms[0].key) && Encodes(c, e, ms[0].value) && EncodesEntries(c, more, ms[1..])
  }

  /** The bytes x are one of the encodings of j. */
  ghost predicate IsEncoding(c: Coding, x: string, j: Json) {
    exists t :: Encodes(c, x, t) && j == Meaning(t)
  }

  function Meaning(t: Tree): Json {
    match t
    case Leaf(j) => j
    case Chars(s) => Str(s)
    case Array(es) => Arr(Meanings(es))
    case Object(ms) => Obj(SetAll(map[], ms))
  }

  function Meanings(es: seq<Tree>): seq<Json> {
    if es == [] then [] else [Meaning(es[0])] + Meanings(es[1..])
  }

  /** A later entry replaces an earlier one of the same key. */
  function SetAll(m: map<string, Json>, ms: seq<Entry>): map<string, Json>
    decreases ms
  {
    if ms == [] then m else SetAll(m[ms[0].key := Meaning(ms[0].value)], ms[1..])
  }

  // -------------------------------------------------------------------------------------
  // Every encoding is read
  // -------------------------------------------------------------------------------------

  /** The head h stands at the front of s, and rest behind it. */
  ghost predicate Fronts(c: Coding, s: string, h: Head, rest: string) {
    exists x :: IsHead(c, x, h) && s == x + rest
  }

  /** The format f reads the encodings of the coding c. */
  ghost predicate Understands(c: Coding, f: Format) {
    && (forall s, h, rest {:trigger Fronts(c, s, h, rest)} :: f.read(s) == Got(h, rest) <==> Fronts(c, s, h, rest))
    && forall x, n: nat :: IsHead(c, x, Text(n)) ==> x != [] && f.beginsText(ByteOf(x[0]))
  }

  lemma HeadReads(c: Coding, f: Format, x: string, h: Head, rest: string)
    requires Understands(c, f) && IsHead(c, x, h)
    ensures f.read(x + rest) == Got(h, rest)
  {
    assert Fronts(c, x + rest, h, rest);
  }

  lemma TextReads(c: Coding, f: Format, x: string, s: string, rest: string)
    requires Understands(c, f) && EncodesText(c, x, s)
    ensures f.read(x + rest) == Got(Text(|s|), s + rest) && ReadText(s + rest, |s|) == Got(s, rest)
    ensures x != [] && f.beginsText(ByteOf((x + rest)[0]))
  {
    var h :| IsHead(c, h, Text(|s|)) && x == h + s;
    Associates(h, s, rest);
    HeadReads(c, f, h, Text(|s|), s + rest);
    assert (s + rest)[..|s|] == s && (s + rest)[|s|..] == rest;
    assert (x + rest)[0] == h[0];
  }

  lemma KeyReads(c: Coding, f: Format, x: string, s: string, rest: string)
    requires Understands(c, f) && EncodesText(c, x, s)
    ensures ReadKey(f, x + rest) == Got(s, rest)
  {
    TextReads(c, f, x, s, rest);
  }

  lemma {:induction false} ElementsRead(c: Coding, f: Format, x: string, es: seq<Tree>, a: seq<Json>, rest: string)
    requires Understands(c, f) && EncodesAll(c, x, es)
    ensures ReadElements(f, x + rest, |es|, a) == Got(Arr(a + Meanings(es)), rest)
    decreases es
  {
    if es == [] {
      Unpadded(a);
      Unpadded(rest);
    } else {
      var e, more :| x == e + more && Encodes(c, e, es[0]) && EncodesAll(c, more, es[1..]);
      TreeReads(c, f, e, es[0], more + rest);
      ElementsRead(c, f, more, es[1..], a + [Meaning(es[0])], rest);
      Associates(e, more, rest);
      Associates(a, [Meaning(es[0])], Meanings(es[1..]));
    }
  }

  lemma MemberReads(c: Coding, f: Format, k: string, key: string, e: string, j: Json, rest: string)
    requires Understands(c, f) && EncodesText(c, k, key) && ReadItem(f, e + rest) == Got(j, rest)
    ensures ReadMember(f, k + (e + rest)) == Got(Member(key, j), rest)
  {
    KeyReads(c, f, k, key, e + rest);
  }

  lemma MemberJoined(k: string, e: string, more: string, rest: string)
    ensures k + (e + more) + rest == k + (e + (more + rest))
  {
  }

  lemma {:induction false} EntriesRead(c: Coding, f: Format, x: string, ms: seq<Entry>, m: map<string, Json>, rest: string)
    requires Understands(c, f) && EncodesEntries(c, x, ms)
    ensures ReadMembers(f, x + rest, |ms|, m) == Got(Obj(SetAll(m, ms)), rest)
    decreases ms
  {
    if ms == [] {
      Unpadded(rest);
    } else {
      var k, e, more :| x == k + (e + more)
        && EncodesText(c, k, ms[0].key) && Encodes(c, e, ms[0].value) && EncodesEntries(c, more, ms[1..]);
      TreeReads(c, f, e, ms[0].value, more + rest);
      MemberReads(c, f, k, ms[0].key, e, Meaning(ms[0].value), more + rest);
      EntriesRead(c, f, more, ms[1..], m[ms[0].key := Meaning(ms[0].value)], rest);
      MemberJoined(k, e, more, rest);
    }
  }

  lemma ContainerReads(c: Coding, f: Format, h: string, head: Head, y: string, rest: string)
    requires Understands(c, f) && IsHead(c, h, head)
    ensures f.read(h + y + rest) == Got(head, y + rest)
  {
    HeadReads(c, f, h, head, y + rest);
    Associates(h, y, rest);
  }

  lemma {:induction false} TreeReads(c: Coding, f: Format, x: string, t: Tree, rest: string)
    requires Understands(c, f) && Encodes(c, x, t)
    ensures ReadItem(f, x + rest) == Got(Meaning(t), rest)
    decreases t
  {
    match t
    case Leaf(j) => HeadReads(c, f, x, Value(j), rest);
    case Chars(s) => TextReads(c, f, x, s, rest);
    case Array(es) =>
      var h, y :| IsHead(c, h, List(|es|)) && x == h + y && EncodesAll(c, y, es);
      ContainerReads(c, f, h, List(|es|), y, rest);
      ElementsRead(c, f, y, es, [], rest);
      Unpadded(Meanings(es));
    case Object(ms) =>
      var h, y :| IsHead(c, h, Members(|ms|)) && x == h + y && EncodesEntries(c, y, ms);
      ContainerReads(c, f, h, Members(|ms|), y, rest);
      EntriesRead(c, f, y, ms, map[], rest);
  }

  // -------------------------------------------------------------------------------------
  // Nothing else is read
  // -------------------------------------------------------------------------------------

  lemma HeadFound(c: Coding, f: Format, s: string) returns (x: string)
    requires Understands(c, f) && f.read(s).Got?
    ensures IsHead(c, x, f.read(s).value) && s == x + f.read(s).rest
  {
    var r := f.read(s);
    assert Fronts(c, s, r.value, r.rest);
    x :| IsHead(c, x, r.value) && s == x + r.rest;
  }

  lemma TextFound(c: Coding, f: Format, s: string) returns (x: string)
    requires Understands(c, f) && f.read(s).Got? && f.read(s).value.Text?
    requires ReadText(f.read(s).rest, f.read(s).value.n).Got?
    ensures var h := f.read(s); var r := ReadText(h.rest, h.value.n);
      EncodesText(c, x, r.value) && s == x + r.rest
  {
    var h := f.read(s);
    var y := HeadFound(c, f, s);
    var n := h.value.n;
    x := y + h.rest[..n];
    assert h.rest == h.rest[..n] + h.rest[n..];
    Associates(y, h.rest[..n], h.rest[n..]);
  }

  lemma NextElement(f: Format, s: string, n: nat, a: seq<Json>)
    requires n > 0 && ReadElements(f, s, n, a).Got?
    ensures var item := ReadItem(f, s);
      item.Got? && ReadElements(f, s, n, a) == ReadElements(f, item.rest, n - 1, a + [item.value])
  {
  }

  lemma NextEntry(f: Format, s: string, n: nat, m: map<string, Json>)
    requires n > 0 && ReadMembers(f, s, n, m).Got?
    ensures var r := ReadMember(f, s);
      r.Got? && ReadMembers(f, s, n, m) == ReadMembers(f, r.rest, n - 1, m[r.value.key := r.value.value])
  {
  }

  /** The bytes x at the front encode the elements that were read behind a. */
  ghost predicate FoundAll(c: Coding, s: string, a: seq<Json>, r: Read<Json>, x: string, es: seq<Tree>) {
    r.Got? && EncodesAll(c, x, es) && s == x + r.rest && r.value == Arr(a + Meanings(es))
  }

  lemma ElementFound(c: Coding, s: string, e: string, t: Tree, v: Json, u: string, a: seq<Json>, r: Read<Json>,
      more: string, es: seq<Tree>)
    requires Encodes(c, e, t) && v == Meaning(t) && s == e + u && FoundAll(c, u, a + [v], r, more, es)
    ensures FoundAll(c, s, a, r, e + more, [t] + es)
  {
    assert ([t] + es)[1..] == es;
    Associates(e, more, r.rest);
    Associates(a, [v], Meanings(es));
  }

  lemma NothingFound(c: Coding, f: Format, s: string, a: seq<Json>)
    ensures FoundAll(c, s, a, ReadElements(f, s, 0, a), "", [])
  {
    Unpadded(a);
    Unpadded(s);
  }

  lemma NoEntryFound(c: Coding, f: Format, s: string, m: map<string, Json>)
    ensures FoundEntries(c, s, m, ReadMembers(f, s, 0, m), "", [])
  {
    Unpadded(s);
  }

  lemma {:induction false} FirstElement(c: Coding, f: Format, s: string, n: nat, a: seq<Json>, r: Read<Json>)
    returns (e: string, t: Tree, v: Json, u: string)
    requires Understands(c, f) && n > 0 && r == ReadElements(f, s, n, a) && r.Got?
    ensures Encodes(c, e, t) && v == Meaning(t) && s == e + u && |u| < |s|
    ensures r == ReadElements(f, u, n - 1, a + [v])
    decreases |s|, 0, 1
  {
    NextElement(f, s, n, a);
    e, t := TreeFound(c, f, s);
    v, u := ReadItem(f, s).value, ReadItem(f, s).rest;
  }

  lemma {:induction false} ElementsFound(c: Coding, f: Format, s: string, n: nat, a: seq<Json>, r: Read<Json>)
    returns (x: string, es: seq<Tree>)
    requires Understands(c, f) && r == ReadElements(f, s, n, a) && r.Got?
    ensures |es| == n && FoundAll(c, s, a, r, x, es)
    decreases |s|, 1
  {
    if n == 0 {
      NothingFound(c, f, s, a);
      x, es := "", [];
    } else {
      var e, t, v, u := FirstElement(c, f, s, n, a, r);
      var more, others := ElementsFound(c, f, u, n - 1, a + [v], r);
      ElementFound(c, s, e, t, v, u, a, r, more, others);
      x, es := e + more, [t] + others;
    }
  }

  ghost predicate FoundEntries(c: Coding, s: string, m: map<string, Json>, r: Read<Json>, x: string, ms: seq<Entry>) {
    r.Got? && EncodesEntries(c, x, ms) && s == x + r.rest && r.value == Obj(SetAll(m, ms))
  }

  lemma MoreEntries(c: Coding, s: string, k: string, e: string, entry: Entry, v: Json, u: string, m: map<string, Json>,
      r: Read<Json>, more: string, ms: seq<Entry>)
    requires EncodesText(c, k, entry.key) && Encodes(c, e, entry.value) && v == Meaning(entry.value) && s == k + (e + u)
    requires FoundEntries(c, u, m[entry.key := v], r, more, ms)
    ensures FoundEntries(c, s, m, r, k + (e + more), [entry] + ms)
  {
    assert ([entry] + ms)[1..] == ms;
    MemberJoined(k, e, more, r.rest);
  }

  lemma {:induction false} EntriesFound(c: Coding, f: Format, s: string, n: nat, m: map<string, Json>, r: Read<Json>)
    returns (x: string, ms: seq<Entry>)
    requires Understands(c, f) && r == ReadMembers(f, s, n, m) && r.Got?
    ensures |ms| == n && FoundEntries(c, s, m, r, x, ms)
    decreases |s|, 1
  {
    if n == 0 {
      NoEntryFound(c, f, s, m);
      x, ms := "", [];
    } else {
      NextEntry(f, s, n, m);
      var k, e, entry, v, u := EntryFound(c, f, s);
      var more, others := EntriesFound(c, f, u, n - 1, m[entry.key := v], r);
      MoreEntries(c, s, k, e, entry, v, u, m, r, more, others);
      x, ms := k + (e + more), [entry] + others;
    }
  }

  lemma {:induction false} EntryFound(c: Coding, f: Format, s: string)
    returns (k: string, e: string, entry: Entry, v: Json, u: string)
    requires Understands(c, f) && ReadMember(f, s).Got?
    ensures EncodesText(c, k, entry.key) && Encodes(c, e, entry.value) && s == k + (e + u) && |u| < |s|
    ensures v == Meaning(entry.value) && ReadMember(f, s) == Got(Member(entry.key, v), u)
    decreases |s|, 0, 1
  {
    k := TextFound(c, f, s);
    var key := ReadKey(f, s);
    var t: Tree;
    e, t := TreeFound(c, f, key.rest);
    entry := Entry(key.value, t);
    v, u := Meaning(t), ReadMember(f, s).rest;
  }

  /** What is read is the encoding of a value. */
  lemma {:induction false} TreeFound(c: Coding, f: Format, s: string) returns (x: string, t: Tree)
    requires Understands(c, f) && ReadItem(f, s).Got?
    ensures Encodes(c, x, t) && s == x + ReadItem(f, s).rest && ReadItem(f, s).value == Meaning(t)
    decreases |s|, 0, 0
  {
    var h := f.read(s);
    match h.value
    case Value(j) =>
      x := HeadFound(c, f, s);
      t := Leaf(j);
    case Text(n) =>
      x := TextFound(c, f, s);
      t := Chars(ReadText(h.rest, n).value);
    case List(n) =>
      var y := HeadFound(c, f, s);
      var more, es := ElementsFound(c, f, h.rest, n, [], ReadItem(f, s));
      x, t := y + more, Array(es);
      Associates(y, more, ReadItem(f, s).rest);
      Unpadded(Meanings(es));
    case Members(n) =>
      var y := HeadFound(c, f, s);
      var more, ms := EntriesFound(c, f, h.rest, n, map[], ReadItem(f, s));
      x, t := y + more, Object(ms);
      Associates(y, more, ReadItem(f, s).rest);
  }

  // -------------------------------------------------------------------------------------
  // What is written
  // -------------------------------------------------------------------------------------

  /** The members in the order of their keys; positive signed numbers become unsigned ones. */
  function TreeOf(j: Json): Tree
    decreases j, 1, 0
  {
    match j
    case Str(s) => Chars(s)
    case Arr(a) => Array(ElementTrees(j, 0))
    case Obj(m) => Object(Entries(j, Sorted(m.Keys)))
    case _ => Leaf(Norm(j))
  }

  function ElementTrees(j: Json, i: nat): (es: seq<Tree>)
    requires j.Arr? && i <= |j.a|
    ensures |es| == |j.a| - i
    decreases j, 0, |j.a| - i
  {
    if i == |j.a| then [] else [TreeOf(j.a[i])] + ElementTrees(j, i + 1)
  }

  function Entries(j: Json, keys: seq<string>): (ms: seq<Entry>)
    requires j.Obj? && forall k :: k in keys ==> k in j.m
    ensures |ms| == |keys|
    decreases j, 0, |keys|
  {
    if keys == [] then [] else [Entry(keys[0], TreeOf(j.m[keys[0]]))] + Entries(j, keys[1..])
  }

  /** The shortest encoding of each head that fits. */
  ghost predicate IsConcise(c: Coding, f: Format) {
    forall h :: HeadFits(f.limit, h) ==>
      IsHead(c, f.write(h), NormHead(h)) && forall x :: IsHead(c, x, NormHead(h)) ==> |f.write(h)| <= |x|
  }

  ghost predicate Shortest(c: Coding, x: string, t: Tree) {
    Encodes(c, x, t) && forall y :: Encodes(c, y, t) ==> |x| <= |y|
  }

  ghost predicate ShortestAll(c: Coding, x: string, es: seq<Tree>) {
    EncodesAll(c, x, es) && forall y :: EncodesAll(c, y, es) ==> |x| <= |y|
  }

  ghost predicate ShortestEntries(c: Coding, x: string, ms: seq<Entry>) {
    EncodesEntries(c, x, ms) && forall y :: EncodesEntries(c, y, ms) ==> |x| <= |y|
  }

  lemma TextWritten(c: Coding, f: Format, s: string)
    requires IsConcise(c, f) && |s| < f.limit
    ensures EncodesText(c, WriteText(f, s), s)
    ensures forall y :: EncodesText(c, y, s) ==> |WriteText(f, s)| <= |y|
  {
    assert HeadFits(f.limit, Text(|s|));
  }

  lemma {:induction false} ElementsWritten(c: Coding, f: Format, j: Json, i: nat)
    requires j.Arr? && i <= |j.a|
    requires forall k :: 0 <= k < |j.a| ==> Shortest(c, Write(f, j.a[k]), TreeOf(j.a[k]))
    ensures ShortestAll(c, WriteElements(f, j, i), ElementTrees(j, i))
    decreases |j.a| - i
  {
    var x, es := WriteElements(f, j, i), ElementTrees(j, i);
    if i == |j.a| {
      NoneWritten(c);
    } else {
      ElementsWritten(c, f, j, i + 1);
      var v, y, t := j.a[i], Write(f, j.a[i]), TreeOf(j.a[i]);
      assert Shortest(c, y, t);
      OneWritten(c, y, t, WriteElements(f, j, i + 1), ElementTrees(j, i + 1), x, es);
    }
  }

  lemma NoneWritten(c: Coding)
    ensures ShortestAll(c, "", [])
  {
  }

  lemma OneWritten(c: Coding, y: string, t: Tree, more: string, ts: seq<Tree>, x: string, es: seq<Tree>)
    requires Shortest(c, y, t) && ShortestAll(c, more, ts) && x == y + more && es == [t] + ts
    ensures ShortestAll(c, x, es)
  {
    assert es[1..] == ts;
  }

  lemma EntryWritten(c: Coding, k: string, x: string, entry: Entry, more: string, ms: seq<Entry>)
    requires EncodesText(c, k, entry.key) && forall y :: EncodesText(c, y, entry.key) ==> |k| <= |y|
    requires Shortest(c, x, entry.value) && ShortestEntries(c, more, ms)
    ensures ShortestEntries(c, k + (x + more), [entry] + ms)
  {
    assert ([entry] + ms)[1..] == ms;
  }

  lemma {:induction false} EntriesWritten(c: Coding, f: Format, j: Json, keys: seq<string>)
    requires IsConcise(c, f) && j.Obj? && forall k :: k in keys ==> k in j.m && |k| < f.limit
    requires forall k :: k in j.m ==> Shortest(c, Write(f, j.m[k]), TreeOf(j.m[k]))
    ensures ShortestEntries(c, WriteMembers(f, j, keys), Entries(j, keys))
    decreases |keys|
  {
    if keys != [] {
      var k := keys[0];
      TextWritten(c, f, k);
      EntriesWritten(c, f, j, keys[1..]);
      EntryWritten(c, WriteText(f, k), Write(f, j.m[k]), Entry(k, TreeOf(j.m[k])), WriteMembers(f, j, keys[1..]), Entries(j, keys[1..]));
      Associates(WriteText(f, k), Write(f, j.m[k]), WriteMembers(f, j, keys[1..]));
    }
  }

  lemma ArrayWritten(c: Coding, f: Format, n: nat, y: string, es: seq<Tree>)
    requires IsConcise(c, f) && n == |es| < f.limit && ShortestAll(c, y, es)
    ensures Shortest(c, f.write(List(n)) + y, Array(es))
  {
    assert HeadFits(f.limit, List(n));
  }

  lemma ObjectWritten(c: Coding, f: Format, n: nat, y: string, ms: seq<Entry>)
    requires IsConcise(c, f) && n == |ms| < f.limit && ShortestEntries(c, y, ms)
    ensures Shortest(c, f.write(Members(n)) + y, Object(ms))
  {
    assert HeadFits(f.limit, Members(n));
  }

  lemma LeafWritten(c: Coding, f: Format, j: Primitive)
    requires IsConcise(c, f)
    ensures Shortest(c, f.write(Value(j)), Leaf(Norm(j)))
  {
    assert HeadFits(f.limit, Value(j)) && NormHead(Value(j)) == Value(Norm(j));
  }

  /** What is written is the shortest encoding of the value's tree. */
  lemma {:induction false} TreeWritten(c: Coding, f: Format, j: Json)
    requires IsConcise(c, f) && Sized(f.limit, j)
    ensures Shortest(c, Write(f, j), TreeOf(j))
  {
    match j
    case Str(s) => TextWritten(c, f, s);
    case Arr(a) =>
      forall k | 0 <= k < |a| ensures Shortest(c, Write(f, a[k]), TreeOf(a[k])) { TreeWritten(c, f, a[k]); }
      ElementsWritten(c, f, j, 0);
      ArrayWritten(c, f, |a|, WriteElements(f, j, 0), ElementTrees(j, 0));
    case Obj(m) =>
      forall k | k in m ensures Shortest(c, Write(f, m[k]), TreeOf(m[k])) { TreeWritten(c, f, m[k]); }
      EntriesWritten(c, f, j, Sorted(m.Keys));
      ObjectWritten(c, f, |m.Keys|, WriteMembers(f, j, Sorted(m.Keys)), Entries(j, Sorted(m.Keys)));
    case _ => LeafWritten(c, f, j);
  }

  // -------------------------------------------------------------------------------------
  // The two formats
  // -------------------------------------------------------------------------------------

  lemma TextBegins(c: Coding, x: string, n: nat)
    requires IsHead(c, x, Text(n))
    ensures x != [] && FormatOf(c).beginsText(ByteOf(x[0]))
  {
  }

  lemma Understood(c: Coding)
    ensures Understands(c, FormatOf(c))
  {
    var f := FormatOf(c);
    forall s, h, rest ensures f.read(s) == Got(h, rest) <==> Fronts(c, s, h, rest) {
      ReadsEncodings(c, s, h, rest);
    }
    forall x, n: nat | IsHead(c, x, Text(n)) ensures x != [] && f.beginsText(ByteOf(x[0])) {
      TextBegins(c, x, n);
    }
  }

  /** A value is read exactly where one of its encodings stands. */
  lemma ReadsItems(c: Coding, s: string, j: Json, rest: string)
    ensures ReadItem(FormatOf(c), s) == Got(j, rest) <==> exists x :: IsEncoding(c, x, j) && s == x + rest
  {
    var f := FormatOf(c);
    Understood(c);
    if ReadItem(f, s) == Got(j, rest) {
      var x, t := TreeFound(c, f, s);
      assert IsEncoding(c, x, j);
    }
    if x :| IsEncoding(c, x, j) && s == x + rest {
      var t :| Encodes(c, x, t) && j == Meaning(t);
      TreeReads(c, f, x, t, rest);
    }
  }

  lemma Concise(c: Coding)
    ensures IsConcise(c, FormatOf(c))
  {
    var f := FormatOf(c);
    forall h | HeadFits(f.limit, h)
      ensures IsHead(c, f.write(h), NormHead(h)) && forall x :: IsHead(c, x, NormHead(h)) ==> |f.write(h)| <= |x|
    {
      WritesShortest(c, h);
    }
  }

  /** A value is written as an encoding of its tree, and no encoding of that is shorter. */
  lemma WritesItems(c: Coding, j: Json)
    requires Sized(Limit(c), j)
    ensures Shortest(c, Write(FormatOf(c), j), TreeOf(j))
  {
    Concise(c);
    TreeWritten(c, FormatOf(c), j);
  }
}
