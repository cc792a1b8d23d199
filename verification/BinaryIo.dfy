/**
 The binary writer and the binary reader as objects that append to an output and move along an input.
 */
module BinaryIo {
  import opened Json
  import opened Keys
  import opened BinaryHeads
  import opened BinaryItems
  import opened Reversal
  import opened Sequences

  // -------------------------------------------------------------------------------------
  // Numbers in the memory of the host
  // -------------------------------------------------------------------------------------

  function LittleEndian(n: nat, k: nat): (s: string)
    ensures |s| == k
  {
    if k == 0 then [] else [(n % 256) as char] + LittleEndian(n / 256, k - 1)
  }

  /** Reversed, the bytes of a little-endian host are in network order. */
  lemma {:induction false} ReverseLittleEndian(n: nat, k: nat)
    ensures Reversed(LittleEndian(n, k)) == Bytes(n, k)
  {
    if k > 0 {
      ReverseLittleEndian(n / 256, k - 1);
      assert LittleEndian(n, k)[1..] == LittleEndian(n / 256, k - 1);
    }
  }

  /** What memcpy copies out of a number. */
  function Memory(n: nat, k: nat, littleEndian: bool): (s: string)
    ensures |s| == k
  {
    if littleEndian then LittleEndian(n, k) else Bytes(n, k)
  }

  /** The number that memcpy makes of some bytes. */
  function NumberIn(s: string, littleEndian: bool): nat {
    ValueOf(if littleEndian then Reversed(s) else s)
  }

  // -------------------------------------------------------------------------------------
  // Writing
  // -------------------------------------------------------------------------------------

  class BinaryWriter {
    var out: string
    const littleEndian: bool

    constructor (littleEndian: bool)
      ensures out == []
    {
      out := [];
      this.littleEndian := littleEndian;
    }

    method WriteCharacter(b: nat)
      requires b < 256
      modifies this
      ensures out == old(out) + [b as char]
    {
      out := out + [b as char];
    }

    /** The result does not depend on the byte order of the host. */
    method WriteNumber(n: nat, k: nat)
      modifies this
      ensures out == old(out) + Bytes(n, k)
    {
      var memory := Memory(n, k, littleEndian);
      var vec := new char[k](i requires 0 <= i < k => memory[i]);
      assert vec[..] == memory;
      assert vec[..k] == vec[..];
      if littleEndian {
        ReversePrefix(vec, k);
        ReverseLittleEndian(n, k);
        assert vec[..k] == vec[..];
      }
      out := out + vec[..];
    }

    /** A byte that announces a number, and the number. */
    method WriteAnnounced(b: nat, n: nat, k: nat)
      requires b < 256
      modifies this
      ensures out == old(out) + ([b as char] + Bytes(n, k))
    {
      WriteCharacter(b);
      WriteNumber(n, k);
    }

    method WriteCborSize(base: nat, n: nat)
      requires base <= 0xe0
      modifies this
      ensures out == old(out) + CborSize(base, n)
    {
      if n <= 0x17 {
        WriteCharacter(base + n);
      } else if n <= 0xff {
        WriteAnnounced(base + 0x18, n, 1);
      } else if n <= 0xffff {
        WriteAnnounced(base + 0x19, n, 2);
      } else if n <= 0xffff_ffff {
        WriteAnnounced(base + 0x1a, n, 4);
      } else if n <= 0xffff_ffff_ffff_ffff {
        WriteAnnounced(base + 0x1b, n, 8);
      }
    }

    method WriteCborHead(h: Head)
      modifies this
      ensures out == old(out) + CborHead(h)
    {
      match h
      case Text(n) => WriteCborSize(0x60, n);
      case List(n) => WriteCborSize(0x80, n);
      case Members(n) => WriteCborSize(0xa0, n);
      case Value(j) =>
        match j
        case Null => WriteCharacter(0xf6);
        case Bool(b) => WriteCharacter(if b then 0xf5 else 0xf4);
        case Int(i) =>
          if i >= 0 {
            WriteCborSize(0x00, i);
          } else {
            WriteCborSize(0x20, -1 - i);
          }
        case UInt(u) => WriteCborSize(0x00, u);
        case Float(bits) => WriteAnnounced(0xfb, bits, 8);
    }

    method WriteMsgPackUInt(n: nat)
      modifies this
      ensures out == old(out) + MsgPackUInt(n)
    {
      if n < 128 {
        WriteCharacter(n);
      } else if n <= 0xff {
        WriteAnnounced(0xcc, n, 1);
      } else if n <= 0xffff {
        WriteAnnounced(0xcd, n, 2);
      } else if n <= 0xffff_ffff {
        WriteAnnounced(0xce, n, 4);
      } else {
        WriteAnnounced(0xcf, n, 8);
      }
    }

    method WriteMsgPackNegative(i: Int64)
      requires i < 0
      modifies this
      ensures out == old(out) + MsgPackNegative(i)
    {
      Powers();
      if i >= -32 {
        WriteNumber(Unsigned(i, 1), 1);
      } else if i >= -0x80 {
        WriteAnnounced(0xd0, Unsigned(i, 1), 1);
      } else if i >= -0x8000 {
        WriteAnnounced(0xd1, Unsigned(i, 2), 2);
      } else if i >= -0x8000_0000 {
        WriteAnnounced(0xd2, Unsigned(i, 4), 4);
      } else {
        WriteAnnounced(0xd3, Unsigned(i, 8), 8);
      }
    }

    method WriteMsgPackHead(h: Head)
      modifies this
      ensures out == old(out) + MsgPackHead(h)
    {
      match h
      case Text(n) =>
        if n <= 31 {
          WriteCharacter(0xa0 + n);
        } else if n <= 0xff {
          WriteAnnounced(0xd9, n, 1);
        } else if n <= 0xffff {
          WriteAnnounced(0xda, n, 2);
        } else if n <= 0xffff_ffff {
          WriteAnnounced(0xdb, n, 4);
        }
      case List(n) =>
        if n <= 15 {
          WriteCharacter(0x90 + n);
        } else if n <= 0xffff {
          WriteAnnounced(0xdc, n, 2);
        } else if n <= 0xffff_ffff {
          WriteAnnounced(0xdd, n, 4);
        }
      case Members(n) =>
        if n <= 15 {
          WriteCharacter(0x80 + n);
        } else if n <= 0xffff {
          WriteAnnounced(0xde, n, 2);
        } else if n <= 0xffff_ffff {
          WriteAnnounced(0xdf, n, 4);
        }
      case Value(j) =>
        match j
        case Null => WriteCharacter(0xc0);
        case Bool(b) => WriteCharacter(if b then 0xc3 else 0xc2);
        case Int(i) =>
          if i >= 0 {
            WriteMsgPackUInt(i);
          } else {
            WriteMsgPackNegative(i);
          }
        case UInt(u) => WriteMsgPackUInt(u);
        case Float(bits) => WriteAnnounced(0xcb, bits, 8);
    }

    method WriteHead(c: Coding, h: Head)
      modifies this
      ensures out == old(out) + FormatOf(c).write(h)
    {
      match c
      case Cbor => WriteCborHead(h);
      case MsgPack => WriteMsgPackHead(h);
    }

    /** A string: its head, then its bytes. */
    method WriteString(c: Coding, s: string)
      modifies this
      ensures out == old(out) + WriteText(FormatOf(c), s)
    {
      ghost var head := FormatOf(c).write(Text(|s|));
      Associates(out, head, s);
      WriteHead(c, Text(|s|));
      out := out + s;
    }

    /** write_cbor and write_msgpack. */
    method WriteItem(c: Coding, j: Json)
      modifies this
      ensures out == old(out) + Write(FormatOf(c), j)
      decreases j, 2
    {
      match j
      case Str(s) => WriteString(c, s);
      case Arr(a) => WriteArray(c, j);
      case Obj(m) => WriteObject(c, j);
      case _ => WriteHead(c, Value(j));
    }

    method WriteArray(c: Coding, j: Json)
      requires j.Arr?
      modifies this
      ensures out == old(out) + Write(FormatOf(c), j)
      decreases j, 1
    {
      Associates(out, FormatOf(c).write(List(|j.a|)), WriteElements(FormatOf(c), j, 0));
      WriteHead(c, List(|j.a|));
      WriteItems(c, j);
    }

    method WriteObject(c: Coding, j: Json)
      requires j.Obj?
      modifies this
      ensures out == old(out) + Write(FormatOf(c), j)
      decreases j, 1
    {
      Associates(out, FormatOf(c).write(Members(|j.m.Keys|)), WriteMembers(FormatOf(c), j, Sorted(j.m.Keys)));
      WriteHead(c, Members(|j.m.Keys|));
      WritePairs(c, j);
    }

    method WriteItems(c: Coding, j: Json)
      requires j.Arr?
      modifies this
      ensures out == old(out) + WriteElements(FormatOf(c), j, 0)
      decreases j, 0
    {
      ghost var f, all := FormatOf(c), out + WriteElements(FormatOf(c), j, 0);
      for i := 0 to |j.a|
        invariant all == out + WriteElements(f, j, i)
      {
        Associates(out, Write(f, j.a[i]), WriteElements(f, j, i + 1));
        WriteItem(c, j.a[i]);
      }
      assert out + [] == out;
    }

    method WritePairs(c: Coding, j: Json)
      requires j.Obj?
      modifies this
      ensures out == old(out) + WriteMembers(FormatOf(c), j, Sorted(j.m.Keys))
      decreases j, 0
    {
      var keys := Sorted(j.m.Keys);
      ghost var f, all := FormatOf(c), out + WriteMembers(FormatOf(c), j, keys);
      assert keys[0..] == keys;
      for i := 0 to |keys|
        invariant all == out + WriteMembers(f, j, keys[i..])
      {
        MembersStep(f, j, keys, i, out);
        WriteString(c, keys[i]);
        WriteItem(c, j.m[keys[i]]);
      }
      assert out + [] == out;
    }
  }

  lemma MembersStep(f: Format, j: Json, keys: seq<string>, i: nat, before: string)
    requires j.Obj? && i < |keys| && forall k :: k in keys ==> k in j.m
    ensures before + WriteMembers(f, j, keys[i..]) ==
      before + WriteText(f, keys[i]) + Write(f, j.m[keys[i]]) + WriteMembers(f, j, keys[i + 1..])
  {
    var x, y, z := WriteText(f, keys[i]), Write(f, j.m[keys[i]]), WriteMembers(f, j, keys[i + 1..]);
    assert keys[i..][0] == keys[i] && keys[i..][1..] == keys[i + 1..];
    Associates(before, x + y, z);
    Associates(before, x, y);
  }

  // -------------------------------------------------------------------------------------
  // Reading
  // -------------------------------------------------------------------------------------

  datatype Fetched<T> = Ok(value: T) | Err(error: ReadError)

  const EOF := -1

  class BinaryReader {
    const input: string
    const littleEndian: bool
    var pos: nat
    var current: int

    constructor (input: string, littleEndian: bool)
      ensures this.input == input && pos == 0
    {
      this.input, this.littleEndian := input, littleEndian;
      pos, current := 0, EOF;
    }

    ghost predicate Valid()
      reads this
    {
      pos <= |input|
    }

    /** The input that has not been read yet. */
    ghost function Rest(): string
      requires Valid()
      reads this
    {
      input[pos..]
    }

    /** The byte read last has not been used yet. */
    ghost predicate AtByte()
      reads this
    {
      0 < pos <= |input| && current == ByteOf(input[pos - 1])
    }

    /** A result agrees with what the specification reads, and the position with what it leaves. */
    ghost predicate Agrees<T>(r: Fetched<T>, spec: Read<T>)
      requires Valid()
      reads this
    {
      match spec
      case Got(value, rest) => r == Ok(value) && Rest() == rest
      case Failed(error) => r == Err(error)
    }

    method Get()
      requires Valid()
      modifies this
      ensures Valid()
      ensures old(pos) < |input| ==> pos == old(pos) + 1 && current == ByteOf(input[old(pos)])
      ensures old(pos) == |input| ==> pos == old(pos) && current == EOF
    {
      if pos < |input| {
        current := ByteOf(input[pos]);
        pos := pos + 1;
      } else {
        current := EOF;
      }
    }

    /** The result does not depend on the byte order of the host. */
    method GetNumber(k: nat) returns (r: Fetched<nat>)
      requires Valid()
      modifies this
      ensures Valid() && old(pos) <= pos
      ensures Agrees(r, ReadNumber(old(Rest()), k))
    {
      var vec := new char[k](_ => '0');
      ghost var start := pos;
      for i := 0 to k
        invariant start + i == pos <= |input|
        invariant !littleEndian ==> forall n :: 0 <= n < i ==> ByteOf(vec[n]) == ByteOf(input[start + n])
        invariant littleEndian ==> forall n :: k - i <= n < k ==> ByteOf(vec[n]) == ByteOf(input[start + (k - 1 - n)])
      {
        Get();
        if current == EOF {
          return Err(EndOfInput);
        }
        if littleEndian {
          vec[k - i - 1] := current as char;
        } else {
          vec[i] := current as char;
        }
      }
      ghost var ordered := if littleEndian then Reversed(vec[..]) else vec[..];
      ghost var read := input[start..][..k];
      forall n | 0 <= n < k ensures ByteOf(ordered[n]) == ByteOf(read[n]) {
        if littleEndian {
          ReversedAt(vec[..], n);
        }
      }
      SameValue(ordered, read);
      assert input[start..][k..] == input[pos..];
      return Ok(NumberIn(vec[..], littleEndian));
    }

    method GetString(n: nat) returns (r: Fetched<string>)
      requires Valid()
      modifies this
      ensures Valid() && old(pos) <= pos
      ensures Agrees(r, ReadText(old(Rest()), n))
    {
      var result := "";
      ghost var start := pos;
      for i := 0 to n
        invariant start + i == pos <= |input|
        invariant result == input[start..pos]
      {
        Get();
        if current == EOF {
          return Err(EndOfInput);
        }
        result := result + [input[pos - 1]];
      }
      assert input[start..][..n] == input[start..pos] && input[start..][n..] == input[pos..];
      return Ok(result);
    }

    // ----- heads -----

    /** The number behind the current byte. */
    method FollowingHere(k: nat, kind: NumberKind) returns (r: Fetched<Head>)
      requires Valid() && k in {1, 2, 4, 8} && (kind.AsFloat? ==> k == 8)
      modifies this
      ensures Valid() && old(pos) <= pos
      ensures Agrees(r, Following(old(Rest()), k, kind))
    {
      var n := GetNumber(k);
      if n.Err? {
        return Err(n.error);
      }
      return Ok(Make(kind, n.value, k));
    }

    /** The switch of parse_cbor over the current byte. */
    method CborHeadHere() returns (r: Fetched<Head>)
      requires Valid() && AtByte()
      modifies this
      ensures Valid() && old(pos) <= pos
      ensures Agrees(r, ReadCborHead(input[old(pos) - 1..]))
    {
      var b: nat := current;
      assert input[pos - 1..][1..] == Rest();
      if b <= 0x17 {
        r := Ok(Value(UInt(b)));
      } else if b <= 0x1b {
        r := FollowingHere(Width(b - 0x18), AsUInt);
      } else if 0x20 <= b <= 0x37 {
        r := Ok(Value(Int(0x20 - 1 - b)));
      } else if 0x38 <= b <= 0x3b {
        r := FollowingHere(Width(b - 0x38), AsNegative);
      } else if 0x60 <= b <= 0x77 {
        r := Ok(Text(b - 0x60));
      } else if 0x78 <= b <= 0x7b {
        r := FollowingHere(Width(b - 0x78), AsText);
      } else if 0x80 <= b <= 0x97 {
        r := Ok(List(b - 0x80));
      } else if 0x98 <= b <= 0x9b {
        r := FollowingHere(Width(b - 0x98), AsList);
      } else if 0xa0 <= b <= 0xb7 {
        r := Ok(Members(b - 0xa0));
      } else if 0xb8 <= b <= 0xbb {
        r := FollowingHere(Width(b - 0xb8), AsMembers);
      } else if b == 0xf4 {
        r := Ok(Value(Bool(false)));
      } else if b == 0xf5 {
        r := Ok(Value(Bool(true)));
      } else if b == 0xf6 {
        r := Ok(Value(Null));
      } else if b == 0xfb {
        r := FollowingHere(8, AsFloat);
      } else if b in {0x7f, 0x9f, 0xbf, 0xf9, 0xfa} {
        r := Err(NotModelled);
      } else {
        r := Err(UnexpectedByte);
      }
    }

    /** The switch of parse_msgpack over the current byte. */
    method MsgPackHeadHere() returns (r: Fetched<Head>)
      requires Valid() && AtByte()
      modifies this
      ensures Valid() && old(pos) <= pos
      ensures Agrees(r, ReadMsgPackHead(input[old(pos) - 1..]))
    {
      var b: nat := current;
      assert input[pos - 1..][1..] == Rest();
      if b <= 0x7f {
        r := Ok(Value(UInt(b)));
      } else if b <= 0x8f {
        r := Ok(Members(b - 0x80));
      } else if b <= 0x9f {
        r := Ok(List(b - 0x90));
      } else if b <= 0xbf {
        r := Ok(Text(b - 0xa0));
      } else if b == 0xc0 {
        r := Ok(Value(Null));
      } else if b == 0xc2 {
        r := Ok(Value(Bool(false)));
      } else if b == 0xc3 {
        r := Ok(Value(Bool(true)));
      } else if b == 0xca {
        r := Err(NotModelled);
      } else if b == 0xcb {
        r := FollowingHere(8, AsFloat);
      } else if 0xcc <= b <= 0xcf {
        r := FollowingHere(Width(b - 0xcc), AsUInt);
      } else if 0xd0 <= b <= 0xd3 {
        r := FollowingHere(Width(b - 0xd0), AsTwosComplement);
      } else if 0xd9 <= b <= 0xdb {
        r := FollowingHere(Width(b - 0xd9), AsText);
      } else if b == 0xdc {
        r := FollowingHere(2, AsList);
      } else if b == 0xdd {
        r := FollowingHere(4, AsList);
      } else if b == 0xde {
        r := FollowingHere(2, AsMembers);
      } else if b == 0xdf {
        r := FollowingHere(4, AsMembers);
      } else if 0xe0 <= b {
        r := Ok(Value(Int(b - 256)));
      } else {
        r := Err(UnexpectedByte);
      }
    }

    method HeadHere(c: Coding) returns (r: Fetched<Head>)
      requires Valid() && AtByte()
      modifies this
      ensures Valid() && old(pos) <= pos
      ensures Agrees(r, FormatOf(c).read(input[old(pos) - 1..]))
    {
      match c
      case Cbor => r := CborHeadHere();
      case MsgPack => r := MsgPackHeadHere();
    }

    /** get_cbor_string and get_msgpack_string, where only a string may stand. */
    method GetKey(c: Coding) returns (r: Fetched<string>)
      requires Valid()
      modifies this
      ensures Valid() && old(pos) <= pos
      ensures Agrees(r, ReadKey(FormatOf(c), old(Rest())))
    {
      ghost var s := Rest();
      Get();
      if current == EOF {
        return Err(EndOfInput);
      }
      assert s == input[pos - 1..] && ByteOf(s[0]) == current;
      if !FormatOf(c).beginsText(current) {
        return Err(NotAString);
      }
      var h := HeadHere(c);
      if h.Err? {
        return Err(h.error);
      }
      if !h.value.Text? {
        return Err(NotAString);
      }
      r := GetString(h.value.n);
    }

    // ----- items -----

    /** parse_cbor and parse_msgpack. */
    method Parse(c: Coding) returns (r: Fetched<Json>)
      requires Valid()
      modifies this
      ensures Valid() && old(pos) <= pos
      ensures Agrees(r, ReadItem(FormatOf(c), old(Rest())))
      decreases |input| - pos, 0
    {
      ghost var f, s := FormatOf(c), Rest();
      ItemRead(f, s);
      Get();
      if current == EOF {
        ReadNothing(c);
        return Err(EndOfInput);
      }
      var h := HeadHere(c);
      if h.Err? {
        return Err(h.error);
      }
      r := ParseBehind(c, h.value);
    }

    /** What follows a head. */
    method ParseBehind(c: Coding, h: Head) returns (r: Fetched<Json>)
      requires Valid()
      modifies this
      ensures Valid() && old(pos) <= pos
      ensures Agrees(r, ReadBehind(FormatOf(c), h, old(Rest())))
      decreases |input| - pos, 2
    {
      match h
      case Value(j) => r := Ok(j);
      case Text(n) =>
        var t := GetString(n);
        r := if t.Err? then Err(t.error) else Ok(Str(t.value));
      case List(n) => r := ParseElements(c, n);
      case Members(n) => r := ParseMembers(c, n);
    }

    method ParseElements(c: Coding, n: nat) returns (r: Fetched<Json>)
      requires Valid()
      modifies this
      ensures Valid() && old(pos) <= pos
      ensures Agrees(r, ReadElements(FormatOf(c), old(Rest()), n, []))
      decreases |input| - pos, 1
    {
      var a: seq<Json> := [];
      ghost var f, all := FormatOf(c), ReadElements(FormatOf(c), Rest(), n, []);
      for i := 0 to n
        invariant Valid() && old(pos) <= pos
        invariant all == ReadElements(f, Rest(), n - i, a)
      {
        var item := Parse(c);
        if item.Err? {
          return item;
        }
        a := a + [item.value];
      }
      return Ok(Arr(a));
    }

    method ParseMembers(c: Coding, n: nat) returns (r: Fetched<Json>)
      requires Valid()
      modifies this
      ensures Valid() && old(pos) <= pos
      ensures Agrees(r, ReadMembers(FormatOf(c), old(Rest()), n, map[]))
      decreases |input| - pos, 1
    {
      var m: map<string, Json> := map[];
      ghost var f, all := FormatOf(c), ReadMembers(FormatOf(c), Rest(), n, map[]);
      for i := 0 to n
        invariant Valid() && old(pos) <= pos
        invariant all == ReadMembers(f, Rest(), n - i, m)
      {
        var key := GetKey(c);
        if key.Err? {
          return Err(key.error);
        }
        var item := Parse(c);
        if item.Err? {
          return item;
        }
        m := m[key.value := item.value];
      }
      return Ok(Obj(m));
    }
  }

  /** What follows a head. */
  function ReadBehind(f: Format, h: Head, s: string): Read<Json> {
    match h
    case Value(j) => Got(j, s)
    case Text(n) => var t := ReadText(s, n); if t.Failed? then Failed(t.error) else Got(Str(t.value), t.rest)
    case List(n) => ReadElements(f, s, n, [])
    case Members(n) => ReadMembers(f, s, n, map[])
  }

  lemma ItemRead(f: Format, s: string)
    ensures var h := f.read(s);
      ReadItem(f, s) == if h.Failed? then Failed(h.error) else ReadBehind(f, h.value, h.rest)
  {
  }

  lemma ReadNothing(c: Coding)
    ensures FormatOf(c).read([]) == Failed(EndOfInput)
  {
  }

  lemma {:induction false} SameValue(s: string, t: string)
    requires |s| == |t| && forall i :: 0 <= i < |s| ==> ByteOf(s[i]) == ByteOf(t[i])
    ensures ValueOf(s) == ValueOf(t)
  {
    if s != [] {
      SameValue(s[..|s| - 1], t[..|t| - 1]);
    }
  }
}
