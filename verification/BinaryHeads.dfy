/**
 The heads of CBOR (RFC 7049) and MessagePack items: how they are written and read.
 */
module BinaryHeads {
  import opened Json

  datatype Coding = Cbor | MsgPack

  datatype ReadError = EndOfInput | UnexpectedByte | NotAString | NotModelled

  /** A value read from the front of the input, and the input behind it. */
  datatype Read<T> = Got(value: T, rest: string) | Failed(error: ReadError)

  // -------------------------------------------------------------------------------------
  // Numbers in network byte order
  // -------------------------------------------------------------------------------------

  function Pow256(k: nat): (p: nat)
    ensures p > 0
  {
    if k == 0 then 1 else 256 * Pow256(k - 1)
  }

  lemma Powers()
    ensures Pow256(1) == 0x100 && Pow256(2) == 0x1_0000 && Pow256(4) == 0x1_0000_0000
    ensures Pow256(8) == 0x1_0000_0000_0000_0000
  {
    assert Pow256(0) == 1;
    assert Pow256(3) == 0x100_0000;
    assert Pow256(5) == 0x100_0000_0000 && Pow256(6) == 0x1_0000_0000_0000 && Pow256(7) == 0x100_0000_0000_0000;
  }

  /** A char stands for one byte. */
  function ByteOf(c: char): nat {
    c as int % 256
  }

  /** The k low bytes of a number, the highest first. */
  function Bytes(n: nat, k: nat): (s: string)
    ensures |s| == k
  {
    if k == 0 then [] else Bytes(n / 256, k - 1) + [(n % 256) as char]
  }

  function ValueOf(s: string): (n: nat)
    ensures n < Pow256(|s|)
  {
    if s == [] then 0 else ValueOf(s[..|s| - 1]) * 256 + ByteOf(s[|s| - 1])
  }

  lemma {:induction false} ValueOfBytes(n: nat, k: nat)
    requires n < Pow256(k)
    ensures ValueOf(Bytes(n, k)) == n
  {
    if k > 0 {
      var s := Bytes(n, k);
      ValueOfBytes(n / 256, k - 1);
      assert s[..k - 1] == Bytes(n / 256, k - 1);
    }
  }

  function ReadNumber(s: string, k: nat): (r: Read<nat>)
    ensures r.Got? ==> r.value < Pow256(k) && |r.rest| + k == |s|
  {
    if |s| < k then Failed(EndOfInput) else Got(ValueOf(s[..k]), s[k..])
  }

  lemma ReadWritten(n: nat, k: nat, rest: string)
    requires n < Pow256(k)
    ensures ReadNumber(Bytes(n, k) + rest, k) == Got(n, rest)
  {
    ValueOfBytes(n, k);
    var s := Bytes(n, k) + rest;
    assert s[..k] == Bytes(n, k) && s[k..] == rest;
  }

  /** The k-byte two's complement of a number, and back. */
  function Unsigned(n: int, k: nat): nat
    requires 0 <= n + Pow256(k) && n < Pow256(k)
  {
    if n < 0 then n + Pow256(k) else n
  }

  function Signed(n: nat, k: nat): int {
    if 2 * n < Pow256(k) then n else n - Pow256(k)
  }

  // -------------------------------------------------------------------------------------
  // The head of an item: a primitive value, or the size of a string or container
  // -------------------------------------------------------------------------------------

  type Primitive = j: Json | !j.Str? && !j.Arr? && !j.Obj? witness Null

  datatype Head = Value(j: Primitive) | Text(n: nat) | List(n: nat) | Members(n: nat)

  /** A size or positive number behind the initial byte of its CBOR major type. */
  function CborSize(base: nat, n: nat): string
    requires base <= 0xe0
  {
    if n <= 0x17 then [(base + n) as char]
    else if n <= 0xff then [(base + 0x18) as char] + Bytes(n, 1)
    else if n <= 0xffff then [(base + 0x19) as char] + Bytes(n, 2)
    else if n <= 0xffff_ffff then [(base + 0x1a) as char] + Bytes(n, 4)
    else if n <= 0xffff_ffff_ffff_ffff then [(base + 0x1b) as char] + Bytes(n, 8)
    else []
  }

  function CborHead(h: Head): string
  {
    match h
    case Text(n) => CborSize(0x60, n)
    case List(n) => CborSize(0x80, n)
    case Members(n) => CborSize(0xa0, n)
    case Value(j) =>
      match j
      case Null => [0xf6 as char]
      case Bool(b) => [(if b then 0xf5 else 0xf4) as char]
      case Int(i) => if i >= 0 then CborSize(0x00, i) else CborSize(0x20, -1 - i)
      case UInt(u) => CborSize(0x00, u)
      case Float(bits) => [0xfb as char] + Bytes(bits, 8)
  }

  function MsgPackUInt(n: nat): string {
    if n < 128 then [n as char]
    else if n <= 0xff then [0xcc as char] + Bytes(n, 1)
    else if n <= 0xffff then [0xcd as char] + Bytes(n, 2)
    else if n <= 0xffff_ffff then [0xce as char] + Bytes(n, 4)
    else [0xcf as char] + Bytes(n, 8)
  }

  function MsgPackNegative(i: Int64): string
    requires i < 0
  {
    Powers();
    if i >= -32 then Bytes(Unsigned(i, 1), 1)
    else if i >= -0x80 then [0xd0 as char] + Bytes(Unsigned(i, 1), 1)
    else if i >= -0x8000 then [0xd1 as char] + Bytes(Unsigned(i, 2), 2)
    else if i >= -0x8000_0000 then [0xd2 as char] + Bytes(Unsigned(i, 4), 4)
    else [0xd3 as char] + Bytes(Unsigned(i, 8), 8)
  }

  function MsgPackHead(h: Head): string
  {
    match h
    case Text(n) =>
      if n <= 31 then [(0xa0 + n) as char]
      else if n <= 0xff then [0xd9 as char] + Bytes(n, 1)
      else if n <= 0xffff then [0xda as char] + Bytes(n, 2)
      else if n <= 0xffff_ffff then [0xdb as char] + Bytes(n, 4)
      else []
    case List(n) =>
      if n <= 15 then [(0x90 + n) as char]
      else if n <= 0xffff then [0xdc as char] + Bytes(n, 2)
      else if n <= 0xffff_ffff then [0xdd as char] + Bytes(n, 4)
      else []
    case Members(n) =>
      if n <= 15 then [(0x80 + n) as char]
      else if n <= 0xffff then [0xde as char] + Bytes(n, 2)
      else if n <= 0xffff_ffff then [0xdf as char] + Bytes(n, 4)
      else []
    case Value(j) =>
      match j
      case Null => [0xc0 as char]
      case Bool(b) => [(if b then 0xc3 else 0xc2) as char]
      case Int(i) => if i >= 0 then MsgPackUInt(i) else MsgPackNegative(i)
      case UInt(u) => MsgPackUInt(u)
      case Float(bits) => [0xcb as char] + Bytes(bits, 8)
  }

  /** What a number of the input stands for. */
  datatype NumberKind = AsUInt | AsNegative | AsTwosComplement | AsFloat | AsText | AsList | AsMembers

  function Make(kind: NumberKind, n: nat, k: nat): Head
    requires n < Pow256(k) && k in {1, 2, 4, 8} && (kind.AsFloat? ==> k == 8)
  {
    Powers();
    match kind
    case AsUInt => Value(UInt(n))
    case AsNegative => Value(Int(-1 - AsSigned(n)))
    case AsTwosComplement => Value(Int(Signed(n, k)))
    case AsFloat => Value(Float(n))
    case AsText => Text(n)
    case AsList => List(n)
    case AsMembers => Members(n)
  }

  /** The number behind a byte that announces k bytes. */
  function Following(s: string, k: nat, kind: NumberKind): (r: Read<Head>)
    requires k in {1, 2, 4, 8} && (kind.AsFloat? ==> k == 8)
    ensures r.Got? ==> |r.rest| <= |s|
  {
    var n := ReadNumber(s, k);
    if n.Failed? then Failed(n.error) else Got(Make(kind, n.value, k), n.rest)
  }

  /** The number of bytes that follow 0x18 to 0x1b. */
  function Width(w: nat): (k: nat)
    requires w < 4
    ensures k in {1, 2, 4, 8}
  {
    if w == 0 then 1 else if w == 1 then 2 else if w == 2 then 4 else 8
  }

  function ReadCborHead(s: string): (r: Read<Head>)
    ensures r.Got? ==> |r.rest| < |s|
  {
    if s == [] then Failed(EndOfInput)
    else
      var b, t := ByteOf(s[0]), s[1..];
      if b <= 0x17 then Got(Value(UInt(b)), t)
      else if b <= 0x1b then Following(t, Width(b - 0x18), AsUInt)
      else if 0x20 <= b <= 0x37 then Got(Value(Int(0x20 - 1 - b)), t)
      else if 0x38 <= b <= 0x3b then Following(t, Width(b - 0x38), AsNegative)
      else if 0x60 <= b <= 0x77 then Got(Text(b - 0x60), t)
      else if 0x78 <= b <= 0x7b then Following(t, Width(b - 0x78), AsText)
      else if 0x80 <= b <= 0x97 then Got(List(b - 0x80), t)
      else if 0x98 <= b <= 0x9b then Following(t, Width(b - 0x98), AsList)
      else if 0xa0 <= b <= 0xb7 then Got(Members(b - 0xa0), t)
      else if 0xb8 <= b <= 0xbb then Following(t, Width(b - 0xb8), AsMembers)
      else if b == 0xf4 then Got(Value(Bool(false)), t)
      else if b == 0xf5 then Got(Value(Bool(true)), t)
      else if b == 0xf6 then Got(Value(Null), t)
      else if b == 0xfb then Following(t, 8, AsFloat)
      else if b in {0x7f, 0x9f, 0xbf, 0xf9, 0xfa} then Failed(NotModelled)
      else Failed(UnexpectedByte)
  }

  function ReadMsgPackHead(s: string): (r: Read<Head>)
    ensures r.Got? ==> |r.rest| < |s|
  {
    if s == [] then Failed(EndOfInput)
    else
      var b, t := ByteOf(s[0]), s[1..];
      if b <= 0x7f then Got(Value(UInt(b)), t)
      else if b <= 0x8f then Got(Members(b - 0x80), t)
      else if b <= 0x9f then Got(List(b - 0x90), t)
      else if b <= 0xbf then Got(Text(b - 0xa0), t)
      else if b == 0xc0 then Got(Value(Null), t)
      else if b == 0xc2 then Got(Value(Bool(false)), t)
      else if b == 0xc3 then Got(Value(Bool(true)), t)
      else if b == 0xca then Failed(NotModelled)
      else if b == 0xcb then Following(t, 8, AsFloat)
      else if 0xcc <= b <= 0xcf then Following(t, Width(b - 0xcc), AsUInt)
      else if 0xd0 <= b <= 0xd3 then Following(t, Width(b - 0xd0), AsTwosComplement)
      else if 0xd9 <= b <= 0xdb then Following(t, Width(b - 0xd9), AsText)
      else if b == 0xdc then Following(t, 2, AsList)
      else if b == 0xdd then Following(t, 4, AsList)
      else if b == 0xde then Following(t, 2, AsMembers)
      else if b == 0xdf then Following(t, 4, AsMembers)
      else if 0xe0 <= b then Got(Value(Int(b - 256)), t)
      else Failed(UnexpectedByte)
  }

  /** The bytes that begin a string; only such a byte may begin a key. */
  predicate BeginsCborText(b: nat) {
    0x60 <= b <= 0x7b || b == 0x7f
  }

  predicate BeginsMsgPackText(b: nat) {
    0xa0 <= b <= 0xbf || 0xd9 <= b <= 0xdb
  }

  // -------------------------------------------------------------------------------------
  // Heads survive
  // -------------------------------------------------------------------------------------

  /** The formats do not tell positive signed numbers from unsigned ones. */
  function NormHead(h: Head): Head {
    if h.Value? && h.j.Int? && h.j.i >= 0 then Value(UInt(h.j.i)) else h
  }

  /** Sizes that the format can write. */
  function Limit(c: Coding): nat {
    match c
    case Cbor => 0x1_0000_0000_0000_0000
    case MsgPack => 0x1_0000_0000
  }

  predicate HeadFits(limit: nat, h: Head) {
    match h
    case Value(_) => true
    case Text(n) => n < limit
    case List(n) => n < limit
    case Members(n) => n < limit
  }

  lemma ByteIs(b: nat, rest: string)
    requires b < 256
    ensures ByteOf(([b as char] + rest)[0]) == b && ([b as char] + rest)[1..] == rest
  {
  }

  /** A byte, and the k bytes that it announces. */
  lemma FollowingWritten(b: nat, n: nat, k: nat, kind: NumberKind, rest: string)
    requires b < 256 && n < Pow256(k) && k in {1, 2, 4, 8} && (kind.AsFloat? ==> k == 8)
    ensures var s := [b as char] + Bytes(n, k) + rest;
      ByteOf(s[0]) == b && Following(s[1..], k, kind) == Got(Make(kind, n, k), rest)
  {
    var t := Bytes(n, k) + rest;
    ByteIs(b, t);
    ReadWritten(n, k, rest);
    FollowingOf(t, n, k, kind, rest);
    assert [b as char] + Bytes(n, k) + rest == [b as char] + t;
  }

  lemma FollowingOf(t: string, n: nat, k: nat, kind: NumberKind, rest: string)
    requires n < Pow256(k) && k in {1, 2, 4, 8} && (kind.AsFloat? ==> k == 8) && ReadNumber(t, k) == Got(n, rest)
    ensures Following(t, k, kind) == Got(Make(kind, n, k), rest)
  {
  }

  /** The CBOR major types that carry a number. */
  function BaseOf(kind: NumberKind): nat
    requires kind !in {AsTwosComplement, AsFloat}
  {
    match kind
    case AsUInt => 0x00
    case AsNegative => 0x20
    case AsText => 0x60
    case AsList => 0x80
    case AsMembers => 0xa0
  }

  lemma CborLongRead(kind: NumberKind, n: nat, w: nat, rest: string)
    requires kind !in {AsTwosComplement, AsFloat} && w < 4 && n < Pow256(Width(w)) && n < 0x1_0000_0000_0000_0000
    ensures Pow256(8) == 0x1_0000_0000_0000_0000
    ensures ReadCborHead([(BaseOf(kind) + 0x18 + w) as char] + Bytes(n, Width(w)) + rest) == Got(Make(kind, n, 8), rest)
  {
    Powers();
    FollowingWritten(BaseOf(kind) + 0x18 + w, n, Width(w), kind, rest);
    assert Make(kind, n, Width(w)) == Make(kind, n, 8);
  }

  lemma CborSizeRead(kind: NumberKind, n: nat, rest: string)
    requires kind !in {AsTwosComplement, AsFloat} && n < 0x1_0000_0000_0000_0000
    ensures Pow256(8) == 0x1_0000_0000_0000_0000
    ensures ReadCborHead(CborSize(BaseOf(kind), n) + rest) == Got(Make(kind, n, 8), rest)
  {
    Powers();
    var base := BaseOf(kind);
    if n <= 0x17 {
      ByteIs(base + n, rest);
    } else {
      var w := if n <= 0xff then 0 else if n <= 0xffff then 1 else if n <= 0xffff_ffff then 2 else 3;
      CborLongRead(kind, n, w, rest);
    }
  }

  lemma CborHeadRead(h: Head, rest: string)
    requires HeadFits(Limit(Cbor), h)
    ensures ReadCborHead(CborHead(h) + rest) == Got(NormHead(h), rest)
  {
    Powers();
    match h
    case Text(n) => CborSizeRead(AsText, n, rest);
    case List(n) => CborSizeRead(AsList, n, rest);
    case Members(n) => CborSizeRead(AsMembers, n, rest);
    case Value(j) =>
      match j
      case Null => ByteIs(0xf6, rest);
      case Bool(b) => ByteIs(if b then 0xf5 else 0xf4, rest);
      case Int(i) => if i >= 0 { CborSizeRead(AsUInt, i, rest); } else { CborSizeRead(AsNegative, -1 - i, rest); }
      case UInt(u) => CborSizeRead(AsUInt, u, rest);
      case Float(bits) => FollowingWritten(0xfb, bits, 8, AsFloat, rest);
  }

  lemma MsgPackUIntRead(n: UInt64, rest: string)
    ensures ReadMsgPackHead(MsgPackUInt(n) + rest) == Got(Value(UInt(n)), rest)
  {
    Powers();
    if n < 128 {
      ByteIs(n, rest);
    } else {
      var w := if n <= 0xff then 0 else if n <= 0xffff then 1 else if n <= 0xffff_ffff then 2 else 3;
      FollowingWritten(0xcc + w, n, Width(w), AsUInt, rest);
    }
  }

  lemma MsgPackNegativeRead(i: Int64, rest: string)
    requires i < 0
    ensures ReadMsgPackHead(MsgPackNegative(i) + rest) == Got(Value(Int(i)), rest)
  {
    Powers();
    if i >= -32 {
      assert Bytes(256 + i, 1) == [(256 + i) as char];
      ByteIs(256 + i, rest);
    } else {
      var w := if i >= -0x80 then 0 else if i >= -0x8000 then 1 else if i >= -0x8000_0000 then 2 else 3;
      FollowingWritten(0xd0 + w, Unsigned(i, Width(w)), Width(w), AsTwosComplement, rest);
    }
  }

  lemma MsgPackTextRead(n: nat, rest: string)
    requires n < 0x1_0000_0000
    ensures ReadMsgPackHead(MsgPackHead(Text(n)) + rest) == Got(Text(n), rest)
  {
    Powers();
    if n <= 31 {
      ByteIs(0xa0 + n, rest);
    } else {
      var w := if n <= 0xff then 0 else if n <= 0xffff then 1 else 2;
      FollowingWritten(0xd9 + w, n, Width(w), AsText, rest);
    }
  }

  lemma MsgPackListRead(n: nat, rest: string)
    requires n < 0x1_0000_0000
    ensures ReadMsgPackHead(MsgPackHead(List(n)) + rest) == Got(List(n), rest)
  {
    Powers();
    if n <= 15 {
      ByteIs(0x90 + n, rest);
    } else {
      var w := if n <= 0xffff then 1 else 2;
      FollowingWritten(0xdb + w, n, Width(w), AsList, rest);
    }
  }

  lemma MsgPackMembersRead(n: nat, rest: string)
    requires n < 0x1_0000_0000
    ensures ReadMsgPackHead(MsgPackHead(Members(n)) + rest) == Got(Members(n), rest)
  {
    Powers();
    if n <= 15 {
      ByteIs(0x80 + n, rest);
    } else {
      var w := if n <= 0xffff then 1 else 2;
      FollowingWritten(0xdd + w, n, Width(w), AsMembers, rest);
    }
  }

  lemma MsgPackHeadRead(h: Head, rest: string)
    requires HeadFits(Limit(MsgPack), h)
    ensures ReadMsgPackHead(MsgPackHead(h) + rest) == Got(NormHead(h), rest)
  {
    Powers();
    match h
    case Text(n) => MsgPackTextRead(n, rest);
    case List(n) => MsgPackListRead(n, rest);
    case Members(n) => MsgPackMembersRead(n, rest);
    case Value(j) =>
      match j
      case Null => ByteIs(0xc0, rest);
      case Bool(b) => ByteIs(if b then 0xc3 else 0xc2, rest);
      case Int(i) => if i >= 0 { MsgPackUIntRead(i, rest); } else { MsgPackNegativeRead(i, rest); }
      case UInt(u) => MsgPackUIntRead(u, rest);
      case Float(bits) => FollowingWritten(0xcb, bits, 8, AsFloat, rest);
  }

  // -------------------------------------------------------------------------------------
  // Only such heads are read
  // -------------------------------------------------------------------------------------

  lemma FollowingFits(c: Coding, s: string, k: nat, kind: NumberKind)
    requires k in {1, 2, 4, 8} && (kind.AsFloat? ==> k == 8)
    requires kind in {AsText, AsList, AsMembers} ==> Pow256(k) <= Limit(c)
    ensures Following(s, k, kind).Got? ==> HeadFits(Limit(c), Following(s, k, kind).value)
  {
  }

  lemma CborHeadSized(s: string)
    ensures ReadCborHead(s).Got? ==> HeadFits(Limit(Cbor), ReadCborHead(s).value)
  {
    if s != [] {
      Powers();
      var t := s[1..];
      forall k: nat, kind: NumberKind | k in {1, 2, 4, 8} && (kind.AsFloat? ==> k == 8)
        ensures Following(t, k, kind).Got? ==> HeadFits(Limit(Cbor), Following(t, k, kind).value)
      {
        FollowingFits(Cbor, t, k, kind);
      }
    }
  }

  lemma MsgPackHeadSized(s: string)
    ensures ReadMsgPackHead(s).Got? ==> HeadFits(Limit(MsgPack), ReadMsgPackHead(s).value)
  {
    if s != [] {
      Powers();
      var t := s[1..];
      forall k: nat, kind: NumberKind | k in {1, 2, 4, 8} && (kind.AsFloat? ==> k == 8)
          && (kind in {AsText, AsList, AsMembers} ==> k != 8)
        ensures Following(t, k, kind).Got? ==> HeadFits(Limit(MsgPack), Following(t, k, kind).value)
      {
        FollowingFits(MsgPack, t, k, kind);
      }
    }
  }
}
