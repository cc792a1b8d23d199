/**
 The encodings of a head (section 2.1 of RFC 7049, and the MessagePack specification): all are read, and the shortest
 one is written.
 */
module BinaryForms {
  import opened Json
  import opened Integers
  import opened BinaryHeads

  // -------------------------------------------------------------------------------------
  // The encodings
  // -------------------------------------------------------------------------------------

  /** The byte b alone. */
  predicate Alone(x: string, b: int) {
    |x| == 1 && ByteOf(x[0]) == b
  }

  /** The byte b, and n in k bytes. */
  predicate With(x: string, b: nat, n: int, k: nat) {
    |x| == 1 + k && ByteOf(x[0]) == b && ValueOf(x[1..]) == n
  }

  /** The major type is in the three high bits; the number is in the others up to 23, or behind 24 to 27. */
  predicate CborForm(x: string, major: nat, n: int) {
    || (0 <= n < 24 && Alone(x, major * 32 + n))
    || With(x, major * 32 + 24, n, 1)
    || With(x, major * 32 + 25, n, 2)
    || With(x, major * 32 + 26, n, 4)
    || With(x, major * 32 + 27, n, 8)
  }

  /** Negative numbers below the range of int64_t wrap around. */
  predicate IsCborHead(x: string, h: Head) {
    match h
    case Text(n) => CborForm(x, 3, n)
    case List(n) => CborForm(x, 4, n)
    case Members(n) => CborForm(x, 5, n)
    case Value(j) =>
      match j
      case Null => Alone(x, 0xf6)
      case Bool(b) => Alone(x, if b then 0xf5 else 0xf4)
      case UInt(u) => CborForm(x, 0, u)
      case Int(i) => CborForm(x, 1, if i < 0 then -1 - i else 0xffff_ffff_ffff_ffff - i)
      case Float(bits) => With(x, 0xfb, bits, 8)
  }

  /** Two's complement in k bytes. */
  predicate WithSigned(x: string, b: nat, i: int, k: nat) {
    && |x| == 1 + k && ByteOf(x[0]) == b && -(Pow256(k) as int) <= 2 * i < Pow256(k)
    && ValueOf(x[1..]) == if i < 0 then i + Pow256(k) else i
  }

  predicate IsMsgPackHead(x: string, h: Head) {
    match h
    case Text(n) => (n < 32 && Alone(x, 0xa0 + n)) || With(x, 0xd9, n, 1) || With(x, 0xda, n, 2) || With(x, 0xdb, n, 4)
    case List(n) => (n < 16 && Alone(x, 0x90 + n)) || With(x, 0xdc, n, 2) || With(x, 0xdd, n, 4)
    case Members(n) => (n < 16 && Alone(x, 0x80 + n)) || With(x, 0xde, n, 2) || With(x, 0xdf, n, 4)
    case Value(j) =>
      match j
      case Null => Alone(x, 0xc0)
      case Bool(b) => Alone(x, if b then 0xc3 else 0xc2)
      case UInt(u) =>
        (u < 128 && Alone(x, u)) || With(x, 0xcc, u, 1) || With(x, 0xcd, u, 2) || With(x, 0xce, u, 4) || With(x, 0xcf, u, 8)
      case Int(i) =>
        || (-32 <= i < 0 && Alone(x, 256 + i))
        || WithSigned(x, 0xd0, i, 1) || WithSigned(x, 0xd1, i, 2) || WithSigned(x, 0xd2, i, 4) || WithSigned(x, 0xd3, i, 8)
      case Float(bits) => With(x, 0xcb, bits, 8)
  }

  predicate IsHead(c: Coding, x: string, h: Head) {
    if c.Cbor? then IsCborHead(x, h) else IsMsgPackHead(x, h)
  }

  function ReadHead(c: Coding, s: string): Read<Head> {
    if c.Cbor? then ReadCborHead(s) else ReadMsgPackHead(s)
  }

  function WriteHead(c: Coding, h: Head): string {
    if c.Cbor? then CborHead(h) else MsgPackHead(h)
  }

  // -------------------------------------------------------------------------------------
  // Every encoding is read
  // -------------------------------------------------------------------------------------

  lemma FrontOf(x: string, rest: string)
    requires x != []
    ensures (x + rest)[0] == x[0] && (x + rest)[1..] == x[1..] + rest && (|x| == 1 ==> (x + rest)[1..] == rest)
  {
  }

  lemma FollowingRead(y: string, k: nat, kind: NumberKind, rest: string)
    requires |y| == k && k in {1, 2, 4, 8} && (kind.AsFloat? ==> k == 8)
    ensures Following(y + rest, k, kind) == Got(Make(kind, ValueOf(y), k), rest)
  {
    assert (y + rest)[..k] == y && (y + rest)[k..] == rest;
  }

  /** What the numbers of a major type stand for. */
  function KindOf(major: nat): NumberKind
    requires major in {0, 1, 3, 4, 5}
  {
    match major
    case 0 => AsUInt
    case 1 => AsNegative
    case 3 => AsText
    case 4 => AsList
    case _ => AsMembers
  }

  lemma SameKind(kind: NumberKind, n: nat, k: nat)
    requires kind in {AsUInt, AsNegative, AsText, AsList, AsMembers} && k in {1, 2, 4, 8} && n < Pow256(k)
    ensures n < Pow256(8) && Make(kind, n, k) == Make(kind, n, 8)
  {
    Powers();
  }

  /** The switch over the initial byte, in terms of its two parts. */
  lemma CborMajor(s: string, major: nat, info: nat)
    requires s != [] && ByteOf(s[0]) == major * 32 + info && info < 32 && major in {0, 1, 3, 4, 5}
    ensures Pow256(8) > 32
    ensures if info < 24 then ReadCborHead(s) == Got(Make(KindOf(major), info, 8), s[1..])
      else if info < 28 then ReadCborHead(s) == Following(s[1..], Width(info - 24), KindOf(major))
      else ReadCborHead(s).Failed?
  {
    Powers();
  }

  lemma CborLongRead(x: string, major: nat, w: nat, n: nat, rest: string)
    requires major in {0, 1, 3, 4, 5} && w < 4 && With(x, major * 32 + 24 + w, n, Width(w))
    ensures n < Pow256(8) && ReadCborHead(x + rest) == Got(Make(KindOf(major), n, 8), rest)
  {
    FrontOf(x, rest);
    FollowingRead(x[1..], Width(w), KindOf(major), rest);
    SameKind(KindOf(major), n, Width(w));
    CborMajor(x + rest, major, 24 + w);
  }

  lemma CborFormRead(x: string, major: nat, n: nat, rest: string)
    requires major in {0, 1, 3, 4, 5} && CborForm(x, major, n)
    ensures n < Pow256(8) && ReadCborHead(x + rest) == Got(Make(KindOf(major), n, 8), rest)
  {
    if n < 24 && Alone(x, major * 32 + n) {
      FrontOf(x, rest);
      CborMajor(x + rest, major, n);
    } else {
      CborLongRead(x, major, ByteOf(x[0]) - major * 32 - 24, n, rest);
    }
  }

  lemma CborRead(x: string, h: Head, rest: string)
    requires IsCborHead(x, h)
    ensures ReadCborHead(x + rest) == Got(h, rest)
  {
    Powers();
    match h
    case Text(n) => CborFormRead(x, 3, n, rest);
    case List(n) => CborFormRead(x, 4, n, rest);
    case Members(n) => CborFormRead(x, 5, n, rest);
    case Value(j) =>
      match j
      case UInt(u) => CborFormRead(x, 0, u, rest);
      case Int(i) => CborFormRead(x, 1, if i < 0 then -1 - i else 0xffff_ffff_ffff_ffff - i, rest);
      case Float(bits) =>
        FrontOf(x, rest);
        FollowingRead(x[1..], 8, AsFloat, rest);
      case _ => FrontOf(x, rest);
  }

  lemma MsgPackRead(x: string, h: Head, rest: string)
    requires IsMsgPackHead(x, h)
    ensures ReadMsgPackHead(x + rest) == Got(h, rest)
  {
    Powers();
    FrontOf(x, rest);
    var k := |x| - 1;
    if k > 0 {
      match h
      case Text(n) => FollowingRead(x[1..], k, AsText, rest);
      case List(n) => FollowingRead(x[1..], k, AsList, rest);
      case Members(n) => FollowingRead(x[1..], k, AsMembers, rest);
      case Value(j) =>
        match j
        case UInt(u) => FollowingRead(x[1..], k, AsUInt, rest);
        case Int(i) => FollowingRead(x[1..], k, AsTwosComplement, rest);
        case Float(bits) => FollowingRead(x[1..], 8, AsFloat, rest);
    }
  }

  // -------------------------------------------------------------------------------------
  // Nothing else is read
  // -------------------------------------------------------------------------------------

  lemma FollowingFound(s: string, k: nat, kind: NumberKind)
    requires s != [] && k in {1, 2, 4, 8} && (kind.AsFloat? ==> k == 8) && Following(s[1..], k, kind).Got?
    ensures |s| > k && Following(s[1..], k, kind) == Got(Make(kind, ValueOf(s[..1 + k][1..]), k), s[1 + k..])
  {
    assert s[..1 + k][1..] == s[1..][..k] && s[1 + k..] == s[1..][k..];
  }

  lemma FormIsHead(x: string, major: nat, n: nat)
    requires major in {0, 1, 3, 4, 5} && n < Pow256(8) && CborForm(x, major, n)
    ensures IsCborHead(x, Make(KindOf(major), n, 8))
  {
    Powers();
  }

  lemma OneByteFound(s: string)
    requires s != []
    ensures s[..1] + s[1..] == s && Alone(s[..1], ByteOf(s[0]))
  {
  }

  /** The byte b, and the number behind it. */
  lemma NumberFound(s: string, k: nat, kind: NumberKind) returns (x: string)
    requires s != [] && k in {1, 2, 4, 8} && (kind.AsFloat? ==> k == 8) && Following(s[1..], k, kind).Got?
    ensures var r := Following(s[1..], k, kind);
      s == x + r.rest && With(x, ByteOf(s[0]), ValueOf(x[1..]), k) && r.value == Make(kind, ValueOf(x[1..]), k)
  {
    x := s[..1 + k];
    FollowingFound(s, k, kind);
  }

  lemma CborShortFound(s: string, major: nat, info: nat)
    requires s != [] && ByteOf(s[0]) == major * 32 + info && info < 24 && major in {0, 1, 3, 4, 5}
    ensures ReadCborHead(s).Got? && s == s[..1] + ReadCborHead(s).rest && IsCborHead(s[..1], ReadCborHead(s).value)
  {
    CborMajor(s, major, info);
    OneByteFound(s);
    FormIsHead(s[..1], major, info);
  }

  lemma CborLongFound(s: string, major: nat, w: nat) returns (x: string)
    requires s != [] && ByteOf(s[0]) == major * 32 + 24 + w && w < 4 && major in {0, 1, 3, 4, 5} && ReadCborHead(s).Got?
    ensures s == x + ReadCborHead(s).rest && IsCborHead(x, ReadCborHead(s).value)
  {
    CborMajor(s, major, 24 + w);
    x := NumberFound(s, Width(w), KindOf(major));
    var n := ValueOf(x[1..]);
    SameKind(KindOf(major), n, Width(w));
    LongIsForm(x, major, w, n);
    FormIsHead(x, major, n);
  }

  lemma LongIsForm(x: string, major: nat, w: nat, n: nat)
    requires w < 4 && With(x, major * 32 + 24 + w, n, Width(w))
    ensures CborForm(x, major, n)
  {
  }

  lemma CborFound(s: string) returns (x: string)
    requires ReadCborHead(s).Got?
    ensures s == x + ReadCborHead(s).rest && IsCborHead(x, ReadCborHead(s).value)
  {
    var major := ByteOf(s[0]) / 32;
    if major in {0, 1, 3, 4, 5} {
      var info := ByteOf(s[0]) % 32;
      CborMajor(s, major, info);
      if info < 24 {
        CborShortFound(s, major, info);
        x := s[..1];
      } else {
        x := CborLongFound(s, major, info - 24);
      }
    } else if ByteOf(s[0]) == 0xfb {
      Powers();
      x := NumberFound(s, 8, AsFloat);
    } else {
      OneByteFound(s);
      x := s[..1];
    }
  }

  /** Bytes that hold the number themselves. */
  predicate HoldsValue(b: nat) {
    b <= 0xc3 || b >= 0xe0
  }

  lemma MsgPackShort(s: string)
    requires ReadMsgPackHead(s).Got? && HoldsValue(ByteOf(s[0]))
    ensures ReadMsgPackHead(s).rest == s[1..] && IsMsgPackHead(s[..1], ReadMsgPackHead(s).value)
  {
    OneByteFound(s);
  }

  /** What the bytes that announce a number say of it. */
  function Announced(b: nat): (NumberKind, nat) {
    if b == 0xcb then (AsFloat, 8)
    else if 0xcc <= b <= 0xcf then (AsUInt, Width(b - 0xcc))
    else if 0xd0 <= b <= 0xd3 then (AsTwosComplement, Width(b - 0xd0))
    else if 0xd9 <= b <= 0xdb then (AsText, Width(b - 0xd9))
    else if b == 0xdc then (AsList, 2)
    else if b == 0xdd then (AsList, 4)
    else if b == 0xde then (AsMembers, 2)
    else (AsMembers, 4)
  }

  lemma MsgPackLong(s: string)
    requires ReadMsgPackHead(s).Got? && !HoldsValue(ByteOf(s[0]))
    ensures var (kind, k) := Announced(ByteOf(s[0])); k in {1, 2, 4, 8} && (kind.AsFloat? ==> k == 8)
    ensures var (kind, k) := Announced(ByteOf(s[0])); ReadMsgPackHead(s) == Following(s[1..], k, kind)
  {
  }

  lemma AnnouncedIsHead(x: string, n: nat)
    requires x != [] && ByteOf(x[0]) in {0xcb, 0xcc, 0xcd, 0xce, 0xcf, 0xd0, 0xd1, 0xd2, 0xd3, 0xd9, 0xda, 0xdb, 0xdc, 0xdd, 0xde, 0xdf}
    requires var (kind, k) := Announced(ByteOf(x[0])); With(x, ByteOf(x[0]), n, k)
    ensures var (kind, k) := Announced(ByteOf(x[0])); n < Pow256(k) && IsMsgPackHead(x, Make(kind, n, k))
  {
    Powers();
  }

  lemma MsgPackFound(s: string) returns (x: string)
    requires ReadMsgPackHead(s).Got?
    ensures s == x + ReadMsgPackHead(s).rest && IsMsgPackHead(x, ReadMsgPackHead(s).value)
  {
    if HoldsValue(ByteOf(s[0])) {
      OneByteFound(s);
      x := s[..1];
      MsgPackShort(s);
    } else {
      MsgPackLong(s);
      var (kind, k) := Announced(ByteOf(s[0]));
      x := NumberFound(s, k, kind);
      AnnouncedIsHead(x, ValueOf(x[1..]));
    }
  }

  // -------------------------------------------------------------------------------------
  // The shortest is written
  // -------------------------------------------------------------------------------------

  lemma CborSizeShortest(x: string, major: nat, n: nat)
    requires major <= 7 && CborForm(x, major, n)
    ensures |CborSize(major * 32, n)| <= |x|
  {
    Powers();
  }

  lemma CborShortest(x: string, h: Head)
    requires IsCborHead(x, NormHead(h))
    ensures |CborHead(h)| <= |x|
  {
    match h
    case Text(n) => CborSizeShortest(x, 3, n);
    case List(n) => CborSizeShortest(x, 4, n);
    case Members(n) => CborSizeShortest(x, 5, n);
    case Value(j) =>
      match j
      case UInt(u) => CborSizeShortest(x, 0, u);
      case Int(i) => if i >= 0 { CborSizeShortest(x, 0, i); } else { CborSizeShortest(x, 1, -1 - i); }
      case _ =>
  }

  lemma MsgPackShortest(x: string, h: Head)
    requires IsMsgPackHead(x, NormHead(h))
    ensures |MsgPackHead(h)| <= |x|
  {
    Powers();
  }

  // -------------------------------------------------------------------------------------
  // Both formats
  // -------------------------------------------------------------------------------------

  /** A head is read exactly where one of its encodings stands. */
  lemma ReadsEncodings(c: Coding, s: string, h: Head, rest: string)
    ensures ReadHead(c, s) == Got(h, rest) <==> exists x :: IsHead(c, x, h) && s == x + rest
  {
    if ReadHead(c, s) == Got(h, rest) {
      if c.Cbor? {
        var x := CborFound(s);
      } else {
        var x := MsgPackFound(s);
      }
    }
    if x :| IsHead(c, x, h) && s == x + rest {
      if c.Cbor? {
        CborRead(x, h, rest);
      } else {
        MsgPackRead(x, h, rest);
      }
    }
  }

  /** What is written is an encoding of the head, and no other is shorter. */
  lemma WritesShortest(c: Coding, h: Head)
    requires HeadFits(Limit(c), h)
    ensures IsHead(c, WriteHead(c, h), NormHead(h))
    ensures forall x :: IsHead(c, x, NormHead(h)) ==> |WriteHead(c, h)| <= |x|
  {
    var s := WriteHead(c, h);
    assert s + [] == s;
    var x: string;
    if c.Cbor? {
      CborHeadRead(h, []);
      x := CborFound(s);
    } else {
      MsgPackHeadRead(h, []);
      x := MsgPackFound(s);
    }
    assert x + [] == x;
    forall x | IsHead(c, x, NormHead(h)) ensures |s| <= |x| {
      if c.Cbor? {
        CborShortest(x, h);
      } else {
        MsgPackShortest(x, h);
      }
    }
  }
}
