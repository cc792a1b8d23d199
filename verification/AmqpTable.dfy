/**
 AMQP field tables: nested maps, their wire trees in pool storage, and copies of such trees.
 */
module AmqpTable {
  import opened Integers
  import opened Keys

  // -------------------------------------------------------------------------------------
  // Maps and wire trees
  // -------------------------------------------------------------------------------------

  /** Integers carry the width of their C++ type in their constructor; floats are bit patterns. */
  datatype Value =
    | Void
    | Bool(b: bool)
    | I8(i: int) | I16(i: int) | I32(i: int) | I64(i: int)
    | F32(bits: int) | F64(bits: int)
    | Text(s: string)
    | Table(m: map<string, Value>)

  /** The address of a pool block; allocating no bytes gives null. */
  datatype Address = NoBlock | Block(id: nat)

  datatype Bytes = Bytes(at: Address, content: string)

  datatype Field =
    | FVoid
    | FBool(b: bool)
    | FI8(i: int) | FI16(i: int) | FI32(i: int) | FI64(i: int) | FTimestamp(i: int)
    | FF32(bits: int) | FF64(bits: int)
    | FDecimal(decimals: int, i: int)
    | FUtf8(bytes: Bytes) | FBytes(bytes: Bytes)
    | FTable(table: Wire)
    | FArray(at: Address, fields: seq<Field>)
    | FOther(kind: int)

  datatype Entry = Entry(key: Bytes, value: Field)

  datatype Wire = Wire(at: Address, entries: seq<Entry>)

  const EMPTY_TABLE := Wire(NoBlock, [])

  /** int(size()): num_entries has 32 bits. */
  function NumEntries(n: nat): int {
    (n + 0x8000_0000) % 0x1_0000_0000 - 0x8000_0000
  }

  /** How many entries a loop up to num_entries visits. */
  function Visited(n: nat): (k: nat)
    ensures k <= n && (n <= INT_MAX ==> k == n) && (n > INT_MAX ==> k < n)
  {
    if NumEntries(n) < 0 then 0 else NumEntries(n)
  }

  // -------------------------------------------------------------------------------------
  // The pool
  // -------------------------------------------------------------------------------------

  /** A result, and the next block of the pool; or std::bad_alloc. */
  datatype Result<T> = Ok(value: T, next: nat) | BadAlloc

  function Alloc(size: nat, next: nat): (Address, nat) {
    if size == 0 then (NoBlock, next) else (Block(next), next + 1)
  }

  function AllocBytes(s: string, next: nat): (Bytes, nat) {
    var (at, n) := Alloc(|s|, next);
    (Bytes(at, s), n)
  }

  class Pool {
    var next: nat

    constructor (next: nat)
      ensures this.next == next
    {
      this.next := next;
    }

    method Allocate(size: nat) returns (at: Address)
      modifies this
      ensures (at, next) == Alloc(size, old(next))
    {
      if size == 0 {
        return NoBlock;
      }
      at := Block(next);
      next := next + 1;
    }

    /** amqp_pool_alloc_bytes, and the copy of the bytes into the new block. */
    method AllocateBytes(s: string) returns (b: Bytes)
      modifies this
      ensures (b, next) == AllocBytes(s, old(next))
    {
      var at := Allocate(|s|);
      b := Bytes(at, s);
    }
  }

  // -------------------------------------------------------------------------------------
  // From a map to the wire
  // -------------------------------------------------------------------------------------

  function ToWire(t: Value, next: nat): Result<Wire>
    requires t.Table?
    decreases t, 1, 0
  {
    if t.m == map[] then BadAlloc
    else
      var es := ToEntries(t, Sorted(t.m.Keys), next + 1);
      if es.BadAlloc? then BadAlloc else Ok(Wire(Block(next), es.value), es.next)
  }

  function ToEntries(t: Value, keys: seq<string>, next: nat): Result<seq<Entry>>
    requires t.Table? && forall k :: k in keys ==> k in t.m
    decreases t, 0, |keys|
  {
    if keys == [] then Ok([], next)
    else
      var e := ToEntry(keys[0], t.m[keys[0]], next);
      if e.BadAlloc? then BadAlloc
      else
        var es := ToEntries(t, keys[1..], e.next);
        if es.BadAlloc? then BadAlloc else Ok([e.value] + es.value, es.next)
  }

  function ToEntry(k: string, v: Value, next: nat): Result<Entry>
    decreases v, 3, 0
  {
    var (key, n) := AllocBytes(k, next);
    if key.at.NoBlock? then BadAlloc
    else
      var f := ToField(v, n);
      if f.BadAlloc? then BadAlloc else Ok(Entry(key, f.value), f.next)
  }

  /** generate_field_value. */
  function ToField(v: Value, next: nat): Result<Field>
    decreases v, 2, 0
  {
    match v
    case Void => Ok(FVoid, next)
    case Bool(b) => Ok(FBool(b), next)
    case I8(i) => Ok(FI8(i), next)
    case I16(i) => Ok(FI16(i), next)
    case I32(i) => Ok(FI32(i), next)
    case I64(i) => Ok(FI64(i), next)
    case F32(bits) => Ok(FF32(bits), next)
    case F64(bits) => Ok(FF64(bits), next)
    case Text(s) => var (b, n) := AllocBytes(s, next); Ok(FUtf8(b), n)
    case Table(_) =>
      var t := ToWire(v, next);
      if t.BadAlloc? then BadAlloc else Ok(FTable(t.value), t.next)
  }

  /** to_amqp: an empty table needs no pool. */
  function ToAmqp(m: map<string, Value>, next: nat): Result<Wire> {
    if m == map[] then Ok(EMPTY_TABLE, next) else ToWire(Table(m), next)
  }

  // -------------------------------------------------------------------------------------
  // From the wire to a map
  // -------------------------------------------------------------------------------------

  function FromWire(t: Wire): map<string, Value>
    decreases t, 1
  {
    FromEntries(t, 0, map[])
  }

  /** emplace leaves an entry that is there already as it is. */
  function FromEntries(t: Wire, i: nat, m: map<string, Value>): map<string, Value>
    decreases t, 0, |t.entries| - i
  {
    if i >= Visited(|t.entries|) then m
    else
      var k, v := t.entries[i].key.content, FromField(t.entries[i].value);
      FromEntries(t, i + 1, if k in m then m else m[k := v])
  }

  /** create_value. */
  function FromField(f: Field): Value
    decreases f, 2
  {
    match f
    case FVoid => Void
    case FBool(b) => Bool(b)
    case FI8(i) => I8(i)
    case FI16(i) => I16(i)
    case FI32(i) => I32(i)
    case FI64(i) => I64(i)
    case FTimestamp(i) => I64(i)
    case FF32(bits) => F32(bits)
    case FF64(bits) => F64(bits)
    case FUtf8(b) => Text(b.content)
    case FBytes(b) => Text(b.content)
    case FTable(t) => Table(FromWire(t))
    case _ => Void
  }

  // -------------------------------------------------------------------------------------
  // Copies
  // -------------------------------------------------------------------------------------

  /** copy_amqp into a pool; amqp_pool_alloc returns null for no entries, and for a negative number of them. */
  function CopyWire(t: Wire, next: nat): Result<Wire>
    decreases t, 1, 0
  {
    if Visited(|t.entries|) == 0 then BadAlloc
    else
      var es := CopyEntries(t, 0, next + 1);
      if es.BadAlloc? then BadAlloc else Ok(Wire(Block(next), es.value), es.next)
  }

  function CopyEntries(t: Wire, i: nat, next: nat): Result<seq<Entry>>
    decreases t, 0, |t.entries| - i
  {
    if i >= Visited(|t.entries|) then Ok([], next)
    else
      var e := CopyEntry(t.entries[i], next);
      if e.BadAlloc? then BadAlloc
      else
        var es := CopyEntries(t, i + 1, e.next);
        if es.BadAlloc? then BadAlloc else Ok([e.value] + es.value, es.next)
  }

  function CopyEntry(e: Entry, next: nat): Result<Entry>
    decreases e, 3, 0
  {
    var (key, n) := AllocBytes(e.key.content, next);
    if key.at.NoBlock? then BadAlloc
    else
      var f := CopyField(e.value, n);
      if f.BadAlloc? then BadAlloc else Ok(Entry(key, f.value), f.next)
  }

  /** copy_value: strings, arrays and tables get new storage, everything else is copied as it is. */
  function CopyField(f: Field, next: nat): Result<Field>
    decreases f, 2, 0
  {
    match f
    case FUtf8(b) => var (c, n) := AllocBytes(b.content, next); Ok(FUtf8(c), n)
    case FBytes(b) => var (c, n) := AllocBytes(b.content, next); Ok(FBytes(c), n)
    case FArray(_, fields) =>
      var (at, n) := Alloc(|fields|, next);
      var fs := CopyFields(f, 0, n);
      if fs.BadAlloc? then BadAlloc else Ok(FArray(at, fs.value), fs.next)
    case FTable(t) =>
      var c := CopyWire(t, next);
      if c.BadAlloc? then BadAlloc else Ok(FTable(c.value), c.next)
    case _ => Ok(f, next)
  }

  function CopyFields(a: Field, i: nat, next: nat): Result<seq<Field>>
    requires a.FArray?
    decreases a, 1, |a.fields| - i
  {
    if i >= |a.fields| then Ok([], next)
    else
      var f := CopyField(a.fields[i], next);
      if f.BadAlloc? then BadAlloc
      else
        var fs := CopyFields(a, i + 1, f.next);
        if fs.BadAlloc? then BadAlloc else Ok([f.value] + fs.value, fs.next)
  }

  function CopyAmqp(t: Wire, next: nat): Result<Wire> {
    if NumEntries(|t.entries|) == 0 then Ok(EMPTY_TABLE, next) else CopyWire(t, next)
  }

  // -------------------------------------------------------------------------------------
  // Which tables can be allocated
  // -------------------------------------------------------------------------------------

  /** No empty table and no empty key below. */
  predicate Allocatable(v: Value) {
    v.Table? ==> v.m != map[] && forall k :: k in v.m ==> k != "" && Allocatable(v.m[k])
  }

  lemma {:induction false} EntriesOk(t: Value, keys: seq<string>, next: nat)
    requires t.Table? && forall k :: k in keys ==> k in t.m
    ensures ToEntries(t, keys, next).Ok? <==> forall k :: k in keys ==> k != "" && Allocatable(t.m[k])
    decreases t, 0, |keys|
  {
    if keys != [] {
      var k := keys[0];
      assert keys == [k] + keys[1..];
      var (key, n) := AllocBytes(k, next);
      FieldOk(t.m[k], n);
      var e := ToEntry(k, t.m[k], next);
      if e.Ok? {
        EntriesOk(t, keys[1..], e.next);
      }
    }
  }

  /** std::bad_alloc is thrown exactly for an empty key or an empty nested table. */
  lemma {:induction false} FieldOk(v: Value, next: nat)
    ensures ToField(v, next).Ok? <==> Allocatable(v)
    decreases v, 1, 0
  {
    if v.Table? {
      EntriesOk(v, Sorted(v.m.Keys), next + 1);
    }
  }

  lemma ToAmqpOk(m: map<string, Value>, next: nat)
    ensures ToAmqp(m, next).Ok? <==> m == map[] || Allocatable(Table(m))
  {
    FieldOk(Table(m), next);
  }

  // -------------------------------------------------------------------------------------
  // Rebuilding
  // -------------------------------------------------------------------------------------

  /** Entry j is the first of those a loop visits from i on that has the key k. */
  predicate IsFirst(t: Wire, i: nat, j: nat, k: string) {
    && i <= j < Visited(|t.entries|) && t.entries[j].key.content == k
    && forall h :: i <= h < j ==> t.entries[h].key.content != k
  }

  /** Rebuilding keeps what is there, and of several entries with one key the first. */
  lemma {:induction false} FirstKept(t: Wire, i: nat, m: map<string, Value>, k: string)
    ensures k in m ==> k in FromEntries(t, i, m) && FromEntries(t, i, m)[k] == m[k]
    ensures k !in m && k in FromEntries(t, i, m) ==> exists j: nat :: IsFirst(t, i, j, k)
    ensures forall j: nat :: k !in m && IsFirst(t, i, j, k) ==>
      k in FromEntries(t, i, m) && FromEntries(t, i, m)[k] == FromField(t.entries[j].value)
    decreases |t.entries| - i
  {
    if i < Visited(|t.entries|) {
      var key, v := t.entries[i].key.content, FromField(t.entries[i].value);
      var n := if key in m then m else m[key := v];
      FirstKept(t, i + 1, n, k);
      if k == key {
        assert IsFirst(t, i, i, k);
        assert forall j: nat :: IsFirst(t, i, j, k) ==> j == i;
      } else {
        forall j: nat ensures IsFirst(t, i, j, k) <==> IsFirst(t, i + 1, j, k) {
        }
        if k !in m && k in FromEntries(t, i, m) {
          var j: nat :| IsFirst(t, i + 1, j, k);
          assert IsFirst(t, i, j, k);
        }
      }
    }
  }

  // -------------------------------------------------------------------------------------
  // What the wire means
  // -------------------------------------------------------------------------------------

  /**
   A value says what a field does: integers and floats keep their width and bits, timestamps are 64-bit integers, both
   kinds of text keep their bytes, tables keep their entries, and what has no counterpart is void.
   */
  ghost predicate Denotes(v: Value, f: Field)
    decreases f, 1
  {
    && (v.Void? <==> f.FVoid? || f.FDecimal? || f.FArray? || f.FOther?)
    && (v.Bool? <==> f.FBool?) && (v.Bool? ==> v.b == f.b)
    && (v.I8? <==> f.FI8?) && (v.I16? <==> f.FI16?) && (v.I32? <==> f.FI32?)
    && (v.I64? <==> f.FI64? || f.FTimestamp?)
    && (v.I8? || v.I16? || v.I32? || v.I64? ==> v.i == f.i)
    && (v.F32? <==> f.FF32?) && (v.F64? <==> f.FF64?) && (v.F32? || v.F64? ==> v.bits == f.bits)
    && (v.Text? <==> f.FUtf8? || f.FBytes?) && (v.Text? ==> v.s == f.bytes.content)
    && (v.Table? <==> f.FTable?) && (v.Table? ==> HoldsFirst(v.m, f.table))
  }

  /** The map holds, for each key among the visited entries, what the first entry with that key says. */
  ghost predicate HoldsFirst(m: map<string, Value>, t: Wire)
    decreases t, 0
  {
    && (forall k :: k in m <==> exists i: nat :: IsFirst(t, 0, i, k))
    && (forall k, i: nat :: k in m && IsFirst(t, 0, i, k) ==> Denotes(m[k], t.entries[i].value))
  }

  lemma {:induction false} FieldMeans(f: Field)
    ensures Denotes(FromField(f), f)
    decreases f, 2
  {
    if f.FTable? {
      WireMeans(f.table);
    }
  }

  lemma {:induction false} WireMeans(t: Wire)
    ensures HoldsFirst(FromWire(t), t)
    decreases t, 1
  {
    var m := FromWire(t);
    forall k ensures k in m <==> exists i: nat :: IsFirst(t, 0, i, k) {
      FirstKept(t, 0, map[], k);
    }
    forall k, i: nat | k in m && IsFirst(t, 0, i, k) ensures Denotes(m[k], t.entries[i].value) {
      FirstKept(t, 0, map[], k);
      FieldMeans(t.entries[i].value);
    }
  }

  /** What is written for a value says the same, as text and as an integer and never as bytes or a time. */
  lemma WrittenMeans(v: Value, next: nat)
    requires ToField(v, next).Ok? && Countable(v)
    ensures var f := ToField(v, next).value; Denotes(v, f) && !f.FBytes? && !f.FTimestamp? && (v.Void? ==> f.FVoid?)
  {
    FieldBack(v, next);
    FieldMeans(ToField(v, next).value);
  }

  /** No table has more entries than num_entries can count. */
  predicate Countable(v: Value) {
    v.Table? ==> |v.m.Keys| <= INT_MAX && forall k :: k in v.m ==> Countable(v.m[k])
  }

  ghost predicate EntriesBack(t: Value, keys: seq<string>, es: seq<Entry>)
    requires t.Table? && forall k :: k in keys ==> k in t.m
  {
    && |es| == |keys|
    && forall i :: 0 <= i < |keys| ==>
      && es[i].key.content == keys[i]
      && (FromField(es[i].value) == t.m[keys[i]] <==> Countable(t.m[keys[i]]))
  }

  lemma {:induction false} ToEntriesBack(t: Value, keys: seq<string>, next: nat)
    requires t.Table? && (forall k :: k in keys ==> k in t.m) && ToEntries(t, keys, next).Ok?
    ensures EntriesBack(t, keys, ToEntries(t, keys, next).value)
    decreases t, 0, |keys|
  {
    if keys != [] {
      var (key, n) := AllocBytes(keys[0], next);
      FieldBack(t.m[keys[0]], n);
      ToEntriesBack(t, keys[1..], ToEntry(keys[0], t.m[keys[0]], next).next);
    }
  }

  /** The keys of the entries, all different. */
  predicate HasKeys(w: Wire, keys: seq<string>) {
    && |w.entries| == |keys|
    && (forall i :: 0 <= i < |keys| ==> w.entries[i].key.content == keys[i])
    && (forall i, j :: 0 <= i < j < |keys| ==> keys[i] != keys[j])
  }

  lemma KeyBack(w: Wire, keys: seq<string>, i: nat)
    requires HasKeys(w, keys) && i < |keys|
    ensures i < Visited(|keys|) ==> keys[i] in FromWire(w) && FromWire(w)[keys[i]] == FromField(w.entries[i].value)
    ensures i >= Visited(|keys|) ==> keys[i] !in FromWire(w)
  {
    FirstKept(w, 0, map[], keys[i]);
    forall j: nat | IsFirst(w, 0, j, keys[i]) ensures j == i {
    }
    if i < Visited(|keys|) {
      assert IsFirst(w, 0, i, keys[i]);
    }
  }

  lemma NoOtherKey(w: Wire, keys: seq<string>, k: string)
    requires HasKeys(w, keys) && k in FromWire(w)
    ensures k in keys
  {
    FirstKept(w, 0, map[], k);
    var j: nat :| IsFirst(w, 0, j, k);
    assert k == keys[j];
  }

  /** All entries are visited: the rebuilt table has the keys, with the rebuilt values. */
  lemma AllBack(t: Value, w: Wire)
    requires t.Table? && EntriesBack(t, Sorted(t.m.Keys), w.entries) && |t.m.Keys| <= INT_MAX
    ensures FromWire(w).Keys == t.m.Keys
    ensures forall k :: k in t.m ==> (FromWire(w)[k] == t.m[k] <==> Countable(t.m[k]))
  {
    var keys := Sorted(t.m.Keys);
    SortedDistinct(t.m.Keys);
    forall k | k in FromWire(w) ensures k in t.m {
      NoOtherKey(w, keys, k);
    }
    forall k | k in t.m ensures k in FromWire(w) && (FromWire(w)[k] == t.m[k] <==> Countable(t.m[k])) {
      assert k in keys;
      var i :| 0 <= i < |keys| && keys[i] == k;
      KeyBack(w, keys, i);
    }
  }

  lemma TableBack(t: Value, w: Wire)
    requires t.Table? && EntriesBack(t, Sorted(t.m.Keys), w.entries)
    ensures FromWire(w) == t.m <==> Countable(t)
  {
    var keys := Sorted(t.m.Keys);
    if |keys| > INT_MAX {
      SortedDistinct(t.m.Keys);
      KeyBack(w, keys, Visited(|keys|));
      assert keys[Visited(|keys|)] in t.m;
    } else {
      AllBack(t, w);
      assert FromWire(w) == t.m <==> forall k :: k in t.m ==> FromWire(w)[k] == t.m[k];
    }
  }

  lemma TableFieldBack(t: Value, w: Wire)
    requires t.Table?
    ensures FromField(FTable(w)) == t <==> FromWire(w) == t.m
  {
  }

  lemma ToWireBack(t: Value, next: nat)
    requires t.Table? && ToWire(t, next).Ok? && EntriesBack(t, Sorted(t.m.Keys), ToWire(t, next).value.entries)
    ensures FromField(ToField(t, next).value) == t <==> Countable(t)
  {
    TableBack(t, ToWire(t, next).value);
    TableFieldBack(t, ToWire(t, next).value);
  }

  /** amqp_table(to_amqp(t)) == t, and exactly when. */
  lemma {:induction false} FieldBack(v: Value, next: nat)
    requires ToField(v, next).Ok?
    ensures FromField(ToField(v, next).value) == v <==> Countable(v)
    decreases v, 1, 0
  {
    if v.Table? {
      ToEntriesBack(v, Sorted(v.m.Keys), next + 1);
      ToWireBack(v, next);
    }
  }

  lemma TableRoundTrip(m: map<string, Value>, next: nat)
    ensures var w := ToAmqp(m, next);
      (w.Ok? && FromWire(w.value) == m) <==> (m == map[] || (Allocatable(Table(m)) && Countable(Table(m))))
  {
    ToAmqpOk(m, next);
    if m != map[] && Allocatable(Table(m)) {
      FieldBack(Table(m), next);
    }
  }

  // -------------------------------------------------------------------------------------
  // Copies are equal trees
  // -------------------------------------------------------------------------------------

  function StripBytes(b: Bytes): Bytes {
    b.(at := NoBlock)
  }

  /** The tree without its addresses. */
  function StripField(f: Field): Field
    decreases f
  {
    match f
    case FUtf8(b) => FUtf8(StripBytes(b))
    case FBytes(b) => FBytes(StripBytes(b))
    case FTable(t) => FTable(StripWire(t))
    case FArray(_, fs) => FArray(NoBlock, seq(|fs|, i requires 0 <= i < |fs| => StripField(fs[i])))
    case _ => f
  }

  function StripEntry(e: Entry): Entry
    decreases e
  {
    Entry(StripBytes(e.key), StripField(e.value))
  }

  function StripWire(t: Wire): Wire
    decreases t
  {
    Wire(NoBlock, seq(|t.entries|, i requires 0 <= i < |t.entries| => StripEntry(t.entries[i])))
  }

  /** The entry counts fit num_entries, as those of every wire table do. */
  predicate Counted(f: Field)
    decreases f
  {
    match f
    case FTable(t) => |t.entries| <= INT_MAX && forall i :: 0 <= i < |t.entries| ==> Counted(t.entries[i].value)
    case FArray(_, fs) => forall i :: 0 <= i < |fs| ==> Counted(fs[i])
    case _ => true
  }

  /** No empty table and no empty key below. */
  predicate Copyable(f: Field)
    decreases f
  {
    match f
    case FTable(t) => t.entries != [] &&
      forall i :: 0 <= i < |t.entries| ==> t.entries[i].key.content != "" && Copyable(t.entries[i].value)
    case FArray(_, fs) => forall i :: 0 <= i < |fs| ==> Copyable(fs[i])
    case _ => true
  }

  /** A copy of f: there exactly when f can be copied, and then equal up to the addresses. */
  predicate IsCopy(f: Field, r: Result<Field>) {
    (r.Ok? <==> Copyable(f)) && (r.Ok? ==> StripField(r.value) == StripField(f))
  }

  predicate EntryCopied(e: Entry, r: Result<Entry>) {
    && (r.Ok? <==> e.key.content != "" && Copyable(e.value))
    && (r.Ok? ==> StripEntry(r.value) == StripEntry(e))
  }

  predicate EntriesCopied(t: Wire, i: nat, r: Result<seq<Entry>>) {
    && (r.Ok? <==> forall j :: i <= j < |t.entries| ==> t.entries[j].key.content != "" && Copyable(t.entries[j].value))
    && (r.Ok? && i <= |t.entries| ==> |r.value| == |t.entries| - i)
    && (r.Ok? && i <= |t.entries| ==>
          forall j :: 0 <= j < |r.value| ==> StripEntry(r.value[j]) == StripEntry(t.entries[i + j]))
  }

  predicate FieldsCopied(fs: seq<Field>, i: nat, r: Result<seq<Field>>) {
    && (r.Ok? <==> forall j :: i <= j < |fs| ==> Copyable(fs[j]))
    && (r.Ok? && i <= |fs| ==> |r.value| == |fs| - i)
    && (r.Ok? && i <= |fs| ==>
          forall j :: 0 <= j < |r.value| ==> StripField(r.value[j]) == StripField(fs[i + j]))
  }

  lemma EntryIsCopied(e: Entry, next: nat)
    requires var (_, n) := AllocBytes(e.key.content, next); IsCopy(e.value, CopyField(e.value, n))
    ensures EntryCopied(e, CopyEntry(e, next))
  {
  }

  /** One entry before the others. */
  lemma EntryBeforeOthers(t: Wire, i: nat, r: Result<Entry>, rs: Result<seq<Entry>>)
    requires i < |t.entries| && EntryCopied(t.entries[i], r) && (r.Ok? ==> EntriesCopied(t, i + 1, rs))
    ensures EntriesCopied(t, i, if r.BadAlloc? then BadAlloc else if rs.BadAlloc? then BadAlloc
      else Ok([r.value] + rs.value, rs.next))
  {
    if r.Ok? && rs.Ok? {
      var es := [r.value] + rs.value;
      forall j | 0 <= j < |es| ensures StripEntry(es[j]) == StripEntry(t.entries[i + j]) {
        if j > 0 {
          assert es[j] == rs.value[j - 1];
        }
      }
    }
  }

  lemma {:induction false} CopyEntriesCopies(t: Wire, i: nat, next: nat)
    requires |t.entries| <= INT_MAX && forall j :: 0 <= j < |t.entries| ==> Counted(t.entries[j].value)
    ensures EntriesCopied(t, i, CopyEntries(t, i, next))
    decreases t, 0, |t.entries| - i
  {
    if i < |t.entries| {
      var (_, n) := AllocBytes(t.entries[i].key.content, next);
      CopyFieldCopies(t.entries[i].value, n);
      EntryIsCopied(t.entries[i], next);
      var r := CopyEntry(t.entries[i], next);
      if r.Ok? {
        CopyEntriesCopies(t, i + 1, r.next);
      }
      EntryBeforeOthers(t, i, r, if r.Ok? then CopyEntries(t, i + 1, r.next) else BadAlloc);
    }
  }

  lemma FieldBeforeOthers(fs: seq<Field>, i: nat, r: Result<Field>, rs: Result<seq<Field>>)
    requires i < |fs| && IsCopy(fs[i], r) && (r.Ok? ==> FieldsCopied(fs, i + 1, rs))
    ensures FieldsCopied(fs, i, if r.BadAlloc? then BadAlloc else if rs.BadAlloc? then BadAlloc
      else Ok([r.value] + rs.value, rs.next))
  {
    if r.Ok? && rs.Ok? {
      var gs := [r.value] + rs.value;
      forall j | 0 <= j < |gs| ensures StripField(gs[j]) == StripField(fs[i + j]) {
        if j > 0 {
          assert gs[j] == rs.value[j - 1];
        }
      }
    }
  }

  lemma {:induction false} CopyFieldsCopies(a: Field, i: nat, next: nat)
    requires a.FArray? && Counted(a)
    ensures FieldsCopied(a.fields, i, CopyFields(a, i, next))
    decreases a, 0, |a.fields| - i
  {
    if i < |a.fields| {
      CopyFieldCopies(a.fields[i], next);
      var r := CopyField(a.fields[i], next);
      if r.Ok? {
        CopyFieldsCopies(a, i + 1, r.next);
      }
      FieldBeforeOthers(a.fields, i, r, if r.Ok? then CopyFields(a, i + 1, r.next) else BadAlloc);
    }
  }

  lemma TableIsCopied(t: Wire, next: nat)
    requires |t.entries| <= INT_MAX && EntriesCopied(t, 0, CopyEntries(t, 0, next + 1))
    ensures IsCopy(FTable(t), CopyField(FTable(t), next))
  {
    var r := CopyWire(t, next);
    if r.Ok? {
      assert StripWire(r.value).entries == StripWire(t).entries;
    }
  }

  lemma ArrayIsCopied(a: Field, next: nat)
    requires a.FArray? && FieldsCopied(a.fields, 0, CopyFields(a, 0, Alloc(|a.fields|, next).1))
    ensures IsCopy(a, CopyField(a, next))
  {
    var r := CopyField(a, next);
    if r.Ok? {
      assert StripField(r.value).fields == StripField(a).fields;
    }
  }

  /** copy_value, for every nesting of tables and arrays. */
  lemma {:induction false} CopyFieldCopies(f: Field, next: nat)
    requires Counted(f)
    ensures IsCopy(f, CopyField(f, next))
    decreases f, 1
  {
    match f
    case FTable(t) =>
      CopyEntriesCopies(t, 0, next + 1);
      TableIsCopied(t, next);
    case FArray(_, fs) =>
      CopyFieldsCopies(f, 0, Alloc(|fs|, next).1);
      ArrayIsCopied(f, next);
    case _ =>
  }

  // -------------------------------------------------------------------------------------
  // Copies are made of fresh storage
  // -------------------------------------------------------------------------------------

  function AddressBlocks(a: Address): seq<nat> {
    if a.Block? then [a.id] else []
  }

  /** The blocks of a tree, in the order in which it is built. */
  function FieldBlocks(f: Field): seq<nat>
    decreases f, 2, 0
  {
    match f
    case FUtf8(b) => AddressBlocks(b.at)
    case FBytes(b) => AddressBlocks(b.at)
    case FTable(t) => WireBlocks(t)
    case FArray(at, fs) => AddressBlocks(at) + ArrayBlocks(fs)
    case _ => []
  }

  function ArrayBlocks(fs: seq<Field>): seq<nat>
    decreases fs, 3, 0
  {
    if fs == [] then [] else FieldBlocks(fs[0]) + ArrayBlocks(fs[1..])
  }

  function WireBlocks(t: Wire): seq<nat>
    decreases t, 2, 0
  {
    AddressBlocks(t.at) + EntriesBlocks(t.entries)
  }

  function EntriesBlocks(es: seq<Entry>): seq<nat>
    decreases es, 3, 0
  {
    if es == [] then [] else EntryBlocks(es[0]) + EntriesBlocks(es[1..])
  }

  function EntryBlocks(e: Entry): seq<nat>
    decreases e, 3, 0
  {
    AddressBlocks(e.key.at) + FieldBlocks(e.value)
  }

  function Range(lo: nat, hi: nat): seq<nat>
    requires lo <= hi
  {
    seq(hi - lo, i requires 0 <= i < hi - lo => lo + i)
  }

  lemma RangeConcat(a: nat, b: nat, c: nat)
    requires a <= b <= c
    ensures Range(a, b) + Range(b, c) == Range(a, c)
  {
  }

  lemma AllocIsRange(size: nat, next: nat)
    ensures var (at, n) := Alloc(size, next); next <= n && AddressBlocks(at) == Range(next, n)
  {
  }

  /** A result occupies the blocks from next on, each once. */
  ghost predicate Fresh(blocks: seq<nat>, next: nat, end: nat) {
    next <= end && blocks == Range(next, end)
  }

  lemma FreshConcat(x: seq<nat>, y: seq<nat>, a: nat, b: nat, c: nat)
    requires Fresh(x, a, b) && Fresh(y, b, c)
    ensures Fresh(x + y, a, c)
  {
    RangeConcat(a, b, c);
  }

  lemma EntryFresh(e: Entry, next: nat)
    requires CopyEntry(e, next).Ok?
    requires var (_, n) := AllocBytes(e.key.content, next);
      var r := CopyField(e.value, n); r.Ok? && Fresh(FieldBlocks(r.value), n, r.next)
    ensures var r := CopyEntry(e, next);
      Fresh(EntryBlocks(r.value), next, r.next)
  {
    var (key, n) := AllocBytes(e.key.content, next);
    AllocIsRange(|e.key.content|, next);
    var r := CopyField(e.value, n);
    FreshConcat(AddressBlocks(key.at), FieldBlocks(r.value), next, n, r.next);
  }

  lemma {:induction false} CopyEntriesFresh(t: Wire, i: nat, next: nat)
    requires CopyEntries(t, i, next).Ok?
    ensures var r := CopyEntries(t, i, next); Fresh(EntriesBlocks(r.value), next, r.next)
    decreases t, 0, |t.entries| - i
  {
    if i < Visited(|t.entries|) {
      var e := t.entries[i];
      var (_, n) := AllocBytes(e.key.content, next);
      CopyFieldFresh(e.value, n);
      EntryFresh(e, next);
      var r := CopyEntry(e, next);
      CopyEntriesFresh(t, i + 1, r.next);
      var rs := CopyEntries(t, i + 1, r.next);
      assert ([r.value] + rs.value)[1..] == rs.value;
      FreshConcat(EntryBlocks(r.value), EntriesBlocks(rs.value), next, r.next, rs.next);
    }
  }

  lemma {:induction false} CopyFieldsFresh(a: Field, i: nat, next: nat)
    requires a.FArray? && CopyFields(a, i, next).Ok?
    ensures var r := CopyFields(a, i, next); Fresh(ArrayBlocks(r.value), next, r.next)
    decreases a, 0, |a.fields| - i
  {
    if i < |a.fields| {
      CopyFieldFresh(a.fields[i], next);
      var r := CopyField(a.fields[i], next);
      CopyFieldsFresh(a, i + 1, r.next);
      var rs := CopyFields(a, i + 1, r.next);
      assert ([r.value] + rs.value)[1..] == rs.value;
      FreshConcat(FieldBlocks(r.value), ArrayBlocks(rs.value), next, r.next, rs.next);
    }
  }

  /** Every block of a copy is new, and used once. */
  lemma {:induction false} CopyFieldFresh(f: Field, next: nat)
    requires CopyField(f, next).Ok?
    ensures var r := CopyField(f, next); Fresh(FieldBlocks(r.value), next, r.next)
    decreases f, 1
  {
    match f
    case FUtf8(b) => AllocIsRange(|b.content|, next);
    case FBytes(b) => AllocIsRange(|b.content|, next);
    case FTable(t) =>
      CopyEntriesFresh(t, 0, next + 1);
      var es := CopyEntries(t, 0, next + 1);
      FreshConcat([next], EntriesBlocks(es.value), next, next + 1, es.next);
    case FArray(_, fs) =>
      var (at, n) := Alloc(|fs|, next);
      AllocIsRange(|fs|, next);
      CopyFieldsFresh(f, 0, n);
      var gs := CopyFields(f, 0, n);
      FreshConcat(AddressBlocks(at), ArrayBlocks(gs.value), next, n, gs.next);
    case _ =>
  }

  // -------------------------------------------------------------------------------------
  // Built trees are made of fresh storage, too
  // -------------------------------------------------------------------------------------

  lemma BuiltEntryFresh(k: string, v: Value, next: nat)
    requires ToEntry(k, v, next).Ok?
    requires var (_, n) := AllocBytes(k, next); var r := ToField(v, n); r.Ok? && Fresh(FieldBlocks(r.value), n, r.next)
    ensures var r := ToEntry(k, v, next); Fresh(EntryBlocks(r.value), next, r.next)
  {
    var (key, n) := AllocBytes(k, next);
    AllocIsRange(|k|, next);
    var r := ToField(v, n);
    FreshConcat(AddressBlocks(key.at), FieldBlocks(r.value), next, n, r.next);
  }

  lemma {:induction false} ToEntriesFresh(t: Value, keys: seq<string>, next: nat)
    requires t.Table? && (forall k :: k in keys ==> k in t.m) && ToEntries(t, keys, next).Ok?
    ensures var r := ToEntries(t, keys, next); Fresh(EntriesBlocks(r.value), next, r.next)
    decreases t, 0, |keys|
  {
    if keys != [] {
      var v := t.m[keys[0]];
      var (_, n) := AllocBytes(keys[0], next);
      ToFieldFresh(v, n);
      BuiltEntryFresh(keys[0], v, next);
      var r := ToEntry(keys[0], v, next);
      ToEntriesFresh(t, keys[1..], r.next);
      var rs := ToEntries(t, keys[1..], r.next);
      assert ([r.value] + rs.value)[1..] == rs.value;
      FreshConcat(EntryBlocks(r.value), EntriesBlocks(rs.value), next, r.next, rs.next);
    }
  }

  lemma BuiltTableFresh(t: Value, next: nat)
    requires t.Table? && ToWire(t, next).Ok?
    requires var es := ToEntries(t, Sorted(t.m.Keys), next + 1); Fresh(EntriesBlocks(es.value), next + 1, es.next)
    ensures var r := ToWire(t, next); Fresh(WireBlocks(r.value), next, r.next)
  {
    var es := ToEntries(t, Sorted(t.m.Keys), next + 1);
    FreshConcat([next], EntriesBlocks(es.value), next, next + 1, es.next);
  }

  lemma {:induction false} ToFieldFresh(v: Value, next: nat)
    requires ToField(v, next).Ok?
    ensures var r := ToField(v, next); Fresh(FieldBlocks(r.value), next, r.next)
    decreases v, 1
  {
    match v
    case Text(s) => AllocIsRange(|s|, next);
    case Table(m) =>
      ToEntriesFresh(v, Sorted(m.Keys), next + 1);
      BuiltTableFresh(v, next);
    case _ =>
  }

  // -------------------------------------------------------------------------------------
  // A copy rebuilds the same map
  // -------------------------------------------------------------------------------------

  lemma {:induction false} StripKeepsEntries(t: Wire, i: nat, m: map<string, Value>)
    ensures FromEntries(StripWire(t), i, m) == FromEntries(t, i, m)
    decreases t, 0, |t.entries| - i
  {
    if i < Visited(|t.entries|) {
      var k, v := t.entries[i].key.content, FromField(t.entries[i].value);
      StripKeepsValue(t.entries[i].value);
      assert StripWire(t).entries[i] == StripEntry(t.entries[i]);
      StripKeepsEntries(t, i + 1, if k in m then m else m[k := v]);
    }
  }

  /** Rebuilding does not look at addresses. */
  lemma {:induction false} StripKeepsValue(f: Field)
    ensures FromField(StripField(f)) == FromField(f)
    decreases f, 1
  {
    match f
    case FTable(t) => StripKeepsEntries(t, 0, map[]);
    case _ =>
  }

  /** copy_amqp of a wire table: an equal tree made only of fresh storage, which rebuilds the same map. */
  lemma CopyIsFaithful(t: Wire, next: nat)
    requires Counted(FTable(t))
    ensures var r := CopyAmqp(t, next);
      && (r.Ok? <==> t.entries == [] || Copyable(FTable(t)))
      && (r.Ok? ==> StripWire(r.value) == StripWire(t) && Fresh(WireBlocks(r.value), next, r.next)
                    && FromWire(r.value) == FromWire(t))
  {
    var r := CopyAmqp(t, next);
    if t.entries == [] {
      assert StripWire(t).entries == [] && StripWire(EMPTY_TABLE).entries == [];
    } else {
      CopyFieldCopies(FTable(t), next);
      if r.Ok? {
        CopyFieldFresh(FTable(t), next);
      }
    }
    if r.Ok? {
      StripKeepsEntries(r.value, 0, map[]);
      StripKeepsEntries(t, 0, map[]);
    }
  }

  // -------------------------------------------------------------------------------------
  // The loops
  // -------------------------------------------------------------------------------------

  const NO_ENTRY := Entry(Bytes(NoBlock, ""), FVoid)

  /** What is done already, followed by what is still to be done. */
  function Behind<T>(done: seq<T>, r: Result<seq<T>>): Result<seq<T>> {
    if r.BadAlloc? then BadAlloc else Ok(done + r.value, r.next)
  }

  lemma BehindStep<T>(done: seq<T>, e: Result<T>, rest: Result<seq<T>>)
    ensures Behind(done, if e.BadAlloc? then BadAlloc else if rest.BadAlloc? then BadAlloc else Ok([e.value] + rest.value, rest.next))
      == if e.BadAlloc? then BadAlloc else Behind(done + [e.value], rest)
  {
    if e.Ok? && rest.Ok? {
      assert done + ([e.value] + rest.value) == done + [e.value] + rest.value;
    }
  }

  lemma BuildStep(t: Value, keys: seq<string>, i: nat, next: nat, done: seq<Entry>)
    requires t.Table? && i < |keys| && forall k :: k in keys ==> k in t.m
    ensures var e := ToEntry(keys[i], t.m[keys[i]], next);
      Behind(done, ToEntries(t, keys[i..], next)) ==
        if e.BadAlloc? then BadAlloc else Behind(done + [e.value], ToEntries(t, keys[i + 1..], e.next))
  {
    var e := ToEntry(keys[i], t.m[keys[i]], next);
    assert keys[i..][0] == keys[i] && keys[i..][1..] == keys[i + 1..];
    BehindStep(done, e, if e.Ok? then ToEntries(t, keys[i + 1..], e.next) else BadAlloc);
  }

  lemma NothingBehind<T>(done: seq<T>, next: nat)
    ensures Behind(done, Ok([], next)) == Ok(done, next) && Behind([], Ok(done, next)) == Ok(done, next)
  {
    assert done + [] == done && [] + done == done;
  }

  /** A built value and the pool behind it, or no value because of std::bad_alloc. */
  datatype Built<T> = Built(value: T) | OutOfMemory

  predicate Agrees<T(==)>(b: Built<T>, next: nat, spec: Result<T>) {
    match spec
    case Ok(value, n) => b == Built(value) && next == n
    case BadAlloc => b == OutOfMemory
  }

  /** to_amqp into a pool. */
  method BuildTable(t: Value, pool: Pool) returns (r: Built<Wire>)
    requires t.Table?
    modifies pool
    ensures Agrees(r, pool.next, ToWire(t, old(pool.next)))
    decreases t, 1
  {
    var keys := Sorted(t.m.Keys);
    var at := pool.Allocate(|keys|);
    if at.NoBlock? {
      return OutOfMemory;
    }
    var entries := BuildEntries(t, keys, pool);
    r := if entries.Built? then Built(Wire(at, entries.value)) else OutOfMemory;
  }

  /** The entries are filled in one by one. */
  method BuildEntries(t: Value, keys: seq<string>, pool: Pool) returns (r: Built<seq<Entry>>)
    requires t.Table? && forall k :: k in keys ==> k in t.m
    modifies pool
    ensures Agrees(r, pool.next, ToEntries(t, keys, old(pool.next)))
    decreases t, 0
  {
    var entries := new Entry[|keys|](_ => NO_ENTRY);
    ghost var spec := Behind([], ToEntries(t, keys, pool.next));
    if ToEntries(t, keys, pool.next).Ok? {
      NothingBehind(ToEntries(t, keys, pool.next).value, ToEntries(t, keys, pool.next).next);
    }
    assert keys[0..] == keys && entries[..0] == [];
    for i := 0 to |keys|
      invariant spec == Behind(entries[..i], ToEntries(t, keys[i..], pool.next))
    {
      BuildStep(t, keys, i, pool.next, entries[..i]);
      ghost var done := entries[..i];
      var key := pool.AllocateBytes(keys[i]);
      if key.at.NoBlock? {
        return OutOfMemory;
      }
      var value := BuildField(t.m[keys[i]], pool);
      if value.OutOfMemory? {
        return OutOfMemory;
      }
      entries[i] := Entry(key, value.value);
      assert entries[..i + 1] == done + [entries[i]];
    }
    NothingBehind(entries[..], pool.next);
    assert entries[..|keys|] == entries[..];
    return Built(entries[..]);
  }

  method BuildField(v: Value, pool: Pool) returns (r: Built<Field>)
    modifies pool
    ensures Agrees(r, pool.next, ToField(v, old(pool.next)))
    decreases v, 2
  {
    match v
    case Void => r := Built(FVoid);
    case Bool(b) => r := Built(FBool(b));
    case I8(i) => r := Built(FI8(i));
    case I16(i) => r := Built(FI16(i));
    case I32(i) => r := Built(FI32(i));
    case I64(i) => r := Built(FI64(i));
    case F32(bits) => r := Built(FF32(bits));
    case F64(bits) => r := Built(FF64(bits));
    case Text(s) =>
      var b := pool.AllocateBytes(s);
      r := Built(FUtf8(b));
    case Table(_) =>
      var t := BuildTable(v, pool);
      r := if t.Built? then Built(FTable(t.value)) else OutOfMemory;
  }

  /** The constructor of amqp_table from a wire table. */
  method Rebuild(t: Wire) returns (m: map<string, Value>)
    ensures m == FromWire(t) && HoldsFirst(m, t)
    decreases t, 1
  {
    m := map[];
    var i := 0;
    while i < NumEntries(|t.entries|)
      invariant 0 <= i && FromWire(t) == FromEntries(t, i, m)
    {
      var key := t.entries[i].key.content;
      var value := RebuildField(t.entries[i].value);
      if key !in m {
        m := m[key := value];
      }
      i := i + 1;
    }
    WireMeans(t);
  }

  method RebuildField(f: Field) returns (v: Value)
    ensures v == FromField(f) && Denotes(v, f)
    decreases f, 2
  {
    FieldMeans(f);
    match f
    case FVoid => v := Void;
    case FBool(b) => v := Bool(b);
    case FI8(i) => v := I8(i);
    case FI16(i) => v := I16(i);
    case FI32(i) => v := I32(i);
    case FI64(i) => v := I64(i);
    case FTimestamp(i) => v := I64(i);
    case FF32(bits) => v := F32(bits);
    case FF64(bits) => v := F64(bits);
    case FUtf8(b) => v := Text(b.content);
    case FBytes(b) => v := Text(b.content);
    case FTable(t) =>
      var m := Rebuild(t);
      v := Table(m);
    case _ => v := Void;
  }

  lemma CopyEntryStep(t: Wire, i: nat, next: nat, done: seq<Entry>)
    requires i < Visited(|t.entries|)
    ensures var e := CopyEntry(t.entries[i], next);
      Behind(done, CopyEntries(t, i, next)) ==
        if e.BadAlloc? then BadAlloc else Behind(done + [e.value], CopyEntries(t, i + 1, e.next))
  {
    var e := CopyEntry(t.entries[i], next);
    BehindStep(done, e, if e.Ok? then CopyEntries(t, i + 1, e.next) else BadAlloc);
  }

  /** copy_amqp into a pool. */
  method CopyTable(t: Wire, pool: Pool) returns (r: Built<Wire>)
    modifies pool
    ensures Agrees(r, pool.next, CopyWire(t, old(pool.next)))
    decreases t, 1
  {
    var n := Visited(|t.entries|);
    var at := pool.Allocate(n);
    if at.NoBlock? {
      return OutOfMemory;
    }
    var entries := CopyTableEntries(t, n, pool);
    r := if entries.Built? then Built(Wire(at, entries.value)) else OutOfMemory;
  }

  method CopyTableEntries(t: Wire, n: nat, pool: Pool) returns (r: Built<seq<Entry>>)
    requires n == Visited(|t.entries|)
    modifies pool
    ensures Agrees(r, pool.next, CopyEntries(t, 0, old(pool.next)))
    decreases t, 0
  {
    var entries := new Entry[n](_ => NO_ENTRY);
    ghost var spec := Behind([], CopyEntries(t, 0, pool.next));
    if CopyEntries(t, 0, pool.next).Ok? {
      NothingBehind(CopyEntries(t, 0, pool.next).value, CopyEntries(t, 0, pool.next).next);
    }
    assert entries[..0] == [];
    for i := 0 to n
      invariant spec == Behind(entries[..i], CopyEntries(t, i, pool.next))
    {
      CopyEntryStep(t, i, pool.next, entries[..i]);
      ghost var done := entries[..i];
      var key := pool.AllocateBytes(t.entries[i].key.content);
      if key.at.NoBlock? {
        return OutOfMemory;
      }
      var value := CopyValue(t.entries[i].value, pool);
      if value.OutOfMemory? {
        return OutOfMemory;
      }
      entries[i] := Entry(key, value.value);
      assert entries[..i + 1] == done + [entries[i]];
    }
    NothingBehind(entries[..], pool.next);
    assert entries[..n] == entries[..];
    return Built(entries[..]);
  }

  lemma CopyFieldStep(a: Field, i: nat, next: nat, done: seq<Field>)
    requires a.FArray? && i < |a.fields|
    ensures var f := CopyField(a.fields[i], next);
      Behind(done, CopyFields(a, i, next)) ==
        if f.BadAlloc? then BadAlloc else Behind(done + [f.value], CopyFields(a, i + 1, f.next))
  {
    var f := CopyField(a.fields[i], next);
    BehindStep(done, f, if f.Ok? then CopyFields(a, i + 1, f.next) else BadAlloc);
  }

  method CopyArray(a: Field, pool: Pool) returns (r: Built<seq<Field>>)
    requires a.FArray?
    modifies pool
    ensures Agrees(r, pool.next, CopyFields(a, 0, old(pool.next)))
    decreases a, 1
  {
    var fields := new Field[|a.fields|](_ => FVoid);
    ghost var spec := Behind([], CopyFields(a, 0, pool.next));
    if CopyFields(a, 0, pool.next).Ok? {
      NothingBehind(CopyFields(a, 0, pool.next).value, CopyFields(a, 0, pool.next).next);
    }
    assert fields[..0] == [];
    for i := 0 to |a.fields|
      invariant spec == Behind(fields[..i], CopyFields(a, i, pool.next))
    {
      CopyFieldStep(a, i, pool.next, fields[..i]);
      ghost var done := fields[..i];
      var value := CopyValue(a.fields[i], pool);
      if value.OutOfMemory? {
        return OutOfMemory;
      }
      fields[i] := value.value;
      assert fields[..i + 1] == done + [fields[i]];
    }
    NothingBehind(fields[..], pool.next);
    assert fields[..|a.fields|] == fields[..];
    return Built(fields[..]);
  }

  /** copy_value. */
  method CopyValue(f: Field, pool: Pool) returns (r: Built<Field>)
    modifies pool
    ensures Agrees(r, pool.next, CopyField(f, old(pool.next)))
    decreases f, 2
  {
    match f
    case FUtf8(b) =>
      var c := pool.AllocateBytes(b.content);
      r := Built(FUtf8(c));
    case FBytes(b) =>
      var c := pool.AllocateBytes(b.content);
      r := Built(FBytes(c));
    case FArray(_, fields) =>
      var at := pool.Allocate(|fields|);
      var fs := CopyArray(f, pool);
      r := if fs.Built? then Built(FArray(at, fs.value)) else OutOfMemory;
    case FTable(t) =>
      var c := CopyTable(t, pool);
      r := if c.Built? then Built(FTable(c.value)) else OutOfMemory;
    case _ => r := Built(f);
  }
}
