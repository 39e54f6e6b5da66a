/**
The bytes of a message as the protobuf encoding describes them, with its own numbers: records of a varint key
and a content that the wire type in the key delimits. What the encoder of module Proto puts out and what its
decoder accepts are shown to be exactly that.
*/
module ProtoGrammar {
  import opened Options
  import opened Bits
  import opened Words
  import opened Schema
  import opened Proto
  import opened ProtoLaws
  import opened ProtoRoundTrip
  import V = Varint

  // ---------------------------------------------------------------- varints

  // Seven bits to a byte, the lowest first.
  function Digits(s: seq<byte>): nat
  {
    if s == [] then 0 else s[0] % 0x80 + 0x80 * Digits(s[1..])
  }

  // All bytes but the last one have the high bit set.
  predicate Delimited(s: seq<byte>)
  {
    s != [] && if s[0] < 0x80 then |s| == 1 else Delimited(s[1..])
  }

  predicate IsVarint(s: seq<byte>) { Delimited(s) && |s| <= 10 }

  lemma AccumulateWraps(val: u64, b: byte, i: nat)
    requires i <= 9 && val < Pow2(7 * i)
    ensures V.Accumulate(val, b, i) == U64(val + b % 0x80 * Pow2(7 * i))
    ensures i < 9 ==> val + b % 0x80 * Pow2(7 * i) < Pow2(7 * (i + 1)) <= 0x8000_0000_0000_0000
  {
    hide Pow2, Or, V.Accumulate;
    var d, p := b % 0x80, Pow2(7 * i);
    Pow2Values();
    if i < 9 {
      Pow2Add(7, 7 * i);
      SmallDigit(val, d, p);
      PowerBelow(i);
      V.AccumulateExact(val, b, i, d);
    } else {
      LastAccumulated(val, b, i);
    }
  }

  lemma SmallDigit(val: nat, d: nat, p: nat)
    requires val < p && d < 0x80
    ensures val + d * p < 0x80 * p
  {
    assert d * p <= 0x7f * p;
  }

  lemma PowerBelow(i: nat)
    requires i < 9
    ensures Pow2(7 * (i + 1)) <= 0x8000_0000_0000_0000 && 0x80 <= Pow2(64 - 7 * i)
  {
    hide Pow2;
    Pow2Values();
    Pow2Monotone(7 * (i + 1), 63);
    Pow2Monotone(7, 64 - 7 * i);
    Pow2Add(1, 63);
    assert Pow2(1) == 2 by {
      SmallPowers();
    }
  }

  lemma Pow2Monotone(j: nat, k: nat)
    requires j <= k
    ensures Pow2(j) <= Pow2(k)
  {
    hide Pow2;
    Pow2Add(j, k - j);
    ProductAtLeast(Pow2(k - j), Pow2(j));
  }

  // The tenth byte has room for one bit.
  lemma LastAccumulated(val: u64, b: byte, i: nat)
    requires i == 9 && val < Pow2(7 * i)
    ensures V.Accumulate(val, b, i) == U64(val + b % 0x80 * Pow2(7 * i))
  {
    hide Pow2, Or;
    Pow2Values();
    Pow2Add(1, 63);
    SmallPowers();
    var d := b % 0x80;
    OrDisjoint(val, d % 2, 63);
    assert U64(d * 0x8000_0000_0000_0000) == d % 2 * 0x8000_0000_0000_0000;
  }

  lemma SplitDigits(val: nat, d: nat, rest: nat, p: nat)
    ensures val + (d + 0x80 * rest) * p == (val + d * p) + rest * (0x80 * p)
  {
  }

  // Reading a varint yields the number of its digits, modulo 2^64, whatever follows.
  lemma {:induction false} DecodeDigits(data: seq<byte>, i: nat, val: u64, s: seq<byte>)
    requires i <= |data| && s <= data[i..] && Delimited(s) && i + |s| <= 10 && val < Pow2(7 * i)
    ensures V.DecodeFrom(data, i, val) == Some(V.Read(U64(val + Digits(s) * Pow2(7 * i)), i + |s|))
    decreases |s|
  {
    hide Pow2, V.Accumulate, V.DecodeFrom, U64;
    assert data[i] == s[0];
    V.DecodeDigit(data, i, val);
    AccumulateWraps(val, s[0], i);
    if s[0] < 0x80 {
      assert s[1..] == [];
    } else {
      Tail(s);
      var next := val + s[0] % 0x80 * Pow2(7 * i);
      SmallU64(next);
      assert s[1..] <= data[i + 1..] by {
        assert data[i + 1..] == data[i..][1..];
      }
      DecodeDigits(data, i + 1, next, s[1..]);
      Pow2Add(7, 7 * i);
      Pow2Values();
      SplitDigits(val, s[0] % 0x80, Digits(s[1..]), Pow2(7 * i));
    }
  }

  lemma Tail(s: seq<byte>)
    requires Delimited(s) && s[0] >= 0x80
    ensures Delimited(s[1..]) && |s| >= 2
  {
  }

  lemma SmallU64(x: nat)
    requires x < TWO64
    ensures U64(x) == x
  {
  }

  // And what can be read is a varint.
  lemma {:induction false} DecodedIsDelimited(data: seq<byte>, i: nat, val: u64)
    requires i <= |data| && V.DecodeFrom(data, i, val).Some?
    ensures var n := V.DecodeFrom(data, i, val).value.n; i < n <= |data| && n <= 10 && Delimited(data[i..n])
    decreases |data| - i
  {
    hide V.Accumulate;
    if data[i] >= 0x80 {
      DecodedIsDelimited(data, i + 1, V.Accumulate(val, data[i], i));
      var n := V.DecodeFrom(data, i, val).value.n;
      assert data[i..n][1..] == data[i + 1..n];
    }
  }

  lemma ReadIff(data: seq<byte>)
    ensures match V.Decode(data)
      case None => forall n :: 0 <= n <= |data| ==> !IsVarint(data[..n])
      case Some(r) => 0 < r.n <= |data| && IsVarint(data[..r.n]) && r.val == U64(Digits(data[..r.n]))
  {
    hide V.DecodeFrom, U64;
    var r := V.Decode(data);
    if r.Some? {
      DecodedIsDelimited(data, 0, 0);
      assert data[0..r.value.n] == data[..r.value.n];
      DecodeDigits(data, 0, 0, data[..r.value.n]);
    } else {
      forall n | 0 <= n <= |data|
        ensures !IsVarint(data[..n])
      {
        if IsVarint(data[..n]) {
          DecodeDigits(data, 0, 0, data[..n]);
        }
      }
    }
  }

  // A varint at the front is the one that is read.
  lemma ReadIs(s: seq<byte>, rest: seq<byte>)
    requires IsVarint(s)
    ensures V.Decode(s + rest) == Some(V.Read(U64(Digits(s)), |s|))
  {
    hide V.DecodeFrom, U64;
    DecodeDigits(s + rest, 0, 0, s);
  }

  // ---------------------------------------------------------------- records

  // What follows a key of wire type 0, 2 or 5.
  predicate IsContent(w: nat, s: seq<byte>)
  {
    match w
    case 0 => IsVarint(s)
    case 2 => exists k :: 0 <= k <= |s| && IsVarint(s[..k]) && U64(Digits(s[..k])) == |s| - k
    case 5 => |s| == 4
    case _ => false
  }

  // The wire type of a field's type.
  function WireNumber(typ: FieldType): Option<nat>
  {
    match typ
    case Bool | Int32 | Int64 | Uint32 | Uint64 | Sint32 | Sint64 => Some(0)
    case String | Bytes => Some(2)
    case Float => Some(5)
    case Unknown(_) => None
  }

  lemma WireTypeIs(typ: FieldType)
    ensures WireType(typ) == WireNumber(typ)
  {
  }

  // A delimited varint ends where it ends.
  lemma {:induction false} OneEnd(s: seq<byte>, j: nat, k: nat)
    requires j <= |s| && k <= |s| && Delimited(s[..j]) && Delimited(s[..k])
    ensures j == k
    decreases |s|
  {
    assert s[..j][0] == s[0] && s[..k][0] == s[0];
    if s[0] >= 0x80 {
      assert s[..j][1..] == s[1..][..j - 1] && s[..k][1..] == s[1..][..k - 1];
      OneEnd(s[1..], j - 1, k - 1);
    }
  }

  // skipField delimits exactly the contents.
  lemma SkipIff(data: seq<byte>, w: nat, n: nat)
    requires n <= |data|
    ensures SkipField(data, w) == Some(n) <==> IsContent(w, data[..n])
  {
    hide V.DecodeFrom, Digits, Delimited, U64;
    ReadIff(data);
    if w == 0 {
      SkipVarint(data, n);
    } else if w == 2 {
      SkipBlob(data, n);
    }
  }

  lemma SkipVarint(data: seq<byte>, n: nat)
    requires n <= |data|
    ensures SkipField(data, 0) == Some(n) <==> IsVarint(data[..n])
  {
    hide V.DecodeFrom, Digits, Delimited, U64;
    ReadIff(data);
    if IsVarint(data[..n]) {
      OneEnd(data, n, V.Decode(data).value.n);
    }
  }

  lemma SkipBlob(data: seq<byte>, n: nat)
    requires n <= |data|
    ensures SkipField(data, 2) == Some(n) <==> IsContent(2, data[..n])
  {
    hide V.DecodeFrom, Digits, Delimited, U64;
    ReadIff(data);
    if SkipField(data, 2) == Some(n) {
      var k := V.Decode(data).value.n;
      assert data[..n][..k] == data[..k];
    }
    if IsContent(2, data[..n]) {
      var k :| 0 <= k <= n && IsVarint(data[..n][..k]) && U64(Digits(data[..n][..k])) == n - k;
      assert data[..n][..k] == data[..k];
      OneEnd(data, k, V.Decode(data).value.n);
    }
  }

  // ---------------------------------------------------------------- what the decoder accepts

  // A record whose field, if the schema has it, is written with the wire type of its type.
  predicate IsRecord(fields: seq<Field>, key: seq<byte>, content: seq<byte>)
  {
    var x := U64(Digits(key));
    && IsVarint(key) && IsContent(x % 8, content)
    && match FindTag(fields, U32(x / 8))
       case None => true
       case Some(f) => WireNumber(f.typ) == Some(x % 8)
  }

  // The string starts with a record whose key is k bytes long and whose content is n bytes long.
  predicate StartsWithRecord(fields: seq<Field>, s: seq<byte>, k: nat, n: nat)
  {
    0 < k && 0 < n && k + n <= |s| && IsRecord(fields, s[..k], s[k..k + n])
  }

  ghost predicate IsStream(fields: seq<Field>, s: seq<byte>)
    decreases |s|
  {
    s == [] || exists k, n :: StartsWithRecord(fields, s, k, n) && IsStream(fields, s[k + n..])
  }

  // How long the record at the front is.
  function RecordAt(fields: seq<Field>, s: seq<byte>): (r: Option<(nat, nat)>)
    ensures r.Some? ==> 0 < r.value.0 && 0 < r.value.1 && r.value.0 + r.value.1 <= |s|
  {
    match V.Decode(s)
    case None => None
    case Some(key) =>
      V.DecodeBounds(s, 0, 0);
      match SkipField(s[key.n..], key.val % 8)
      case None => None
      case Some(n) =>
        match FindTag(fields, U32(key.val / 8))
        case None => Some((key.n, n))
        case Some(f) => if WireNumber(f.typ) == Some(key.val % 8) then Some((key.n, n)) else None
  }

  lemma RecordIff(fields: seq<Field>, s: seq<byte>, k: nat, n: nat)
    ensures RecordAt(fields, s) == Some((k, n)) <==> StartsWithRecord(fields, s, k, n)
  {
    hide V.DecodeFrom, Digits, Delimited, U64, U32, SkipField, IsContent, FindTag;
    ReadIff(s);
    if RecordAt(fields, s) == Some((k, n)) || StartsWithRecord(fields, s, k, n) {
      var key := V.Decode(s).value;
      if IsVarint(s[..k]) {
        OneEnd(s, k, key.n);
      }
      assert s[key.n..][..n] == s[key.n..key.n + n];
      SkipIff(s[key.n..], key.val % 8, n);
    }
  }

  lemma TakesIffSkips(data: seq<byte>, typ: FieldType, w: nat)
    ensures DecodeValue(data, typ, w).Some? <==> WireNumber(typ) == Some(w) && SkipField(data, w).Some?
    ensures DecodeValue(data, typ, w).Some? ==> SkipField(data, w) == Some(DecodeValue(data, typ, w).value.n)
  {
    hide V.DecodeFrom, FromVarint;
    WireTypeIs(typ);
  }

  // A turn of DecodeProto consumes the record at the front.
  lemma StepRecord(fields: seq<Field>, out: Message, s: seq<byte>)
    requires s != []
    ensures Step(fields, out, s).Some? <==> RecordAt(fields, s).Some?
    ensures Step(fields, out, s).Some? ==>
              var (k, n) := RecordAt(fields, s).value;
              Step(fields, out, s).value.rest == s[k + n..]
  {
    hide V.DecodeFrom, DecodeValue, SkipField, FindTag, Put, U32;
    if V.Decode(s).Some? {
      V.DecodeBounds(s, 0, 0);
      var key := V.Decode(s).value;
      var f := FindTag(fields, U32(key.val / 8));
      if f.Some? {
        TakesIffSkips(s[key.n..], f.value.typ, key.val % 8);
      }
    }
  }

  lemma EmptyStream(fields: seq<Field>)
    ensures IsStream(fields, [])
  {
  }

  lemma StreamTurn(fields: seq<Field>, s: seq<byte>)
    requires s != []
    ensures IsStream(fields, s)
            <==> RecordAt(fields, s).Some? && var (k, n) := RecordAt(fields, s).value; IsStream(fields, s[k + n..])
  {
    hide StartsWithRecord, RecordAt;
    forall k: nat, n: nat
      ensures StartsWithRecord(fields, s, k, n) <==> RecordAt(fields, s) == Some((k, n))
    {
      RecordIff(fields, s, k, n);
    }
    if RecordAt(fields, s).Some? {
      var (k, n) := RecordAt(fields, s).value;
      assert StartsWithRecord(fields, s, k, n);
    }
  }

  // DecodeProto accepts exactly the streams of records.
  lemma {:induction false} AcceptsIff(fields: seq<Field>, out: Message, s: seq<byte>)
    ensures DecodeFrom(fields, out, s).Some? <==> IsStream(fields, s)
    decreases |s|
  {
    hide Step, IsStream, RecordAt, DecodeFrom;
    if s == [] {
      EmptyStream(fields);
      EmptyBody(fields, out);
    } else {
      DecodeFromIsStep(fields, out, s);
      StepRecord(fields, out, s);
      var r := RecordAt(fields, s);
      StreamTurn(fields, s);
      if r.Some? {
        AcceptsIff(fields, Step(fields, out, s).value.out, s[r.value.0 + r.value.1..]);
      }
    }
  }

  // A record of a field that the schema does not have changes nothing.
  lemma UnknownSkipped(fields: seq<Field>, out: Message, key: seq<byte>, content: seq<byte>, rest: seq<byte>)
    requires IsVarint(key) && IsContent(U64(Digits(key)) % 8, content) && FindTag(fields, U32(U64(Digits(key)) / 8)) == None
    ensures DecodeFrom(fields, out, key + content + rest) == DecodeFrom(fields, out, rest)
  {
    hide V.DecodeFrom, Digits, Delimited, U64, U32, SkipField, IsContent, FindTag, DecodeFrom;
    var s := key + content + rest;
    assert s == key + (content + rest);
    ReadIs(key, content + rest);
    SkipIff(content + rest, U64(Digits(key)) % 8, |content|);
    assert (content + rest)[..|content|] == content;
    assert s[|key|..] == content + rest && (content + rest)[|content|..] == rest;
    DecodeFromIsStep(fields, out, s);
  }

  // ---------------------------------------------------------------- what the decoder reads

  // 0, -1, 1, -2, 2 ... in that order.
  function Zigzag(n: int): nat { if n >= 0 then 2 * n else -2 * n - 1 }

  // The 32-bit number with the same low bits.
  function Low32(n: int): V.i32
  {
    var r := n % TWO32;
    if r < 0x8000_0000 then r else r - TWO32
  }

  // The value that a number stands for in a varint field.
  predicate Denotes(typ: FieldType, x: u64, v: Value)
  {
    match typ
    case Bool => v == VBool(x != 0)
    case Int32 => v == VInt(Low32(x))
    case Int64 => v == VInt(if x < 0x8000_0000_0000_0000 then x else x - TWO64)
    case Uint32 => v == VUint(x % 0x1_0000_0000)
    case Uint64 => v == VUint(x)
    case Sint32 => v.VInt? && Zigzag(v.i) == x % TWO32
    case Sint64 => v.VInt? && Zigzag(v.i) == x
    case _ => false
  }

  predicate BlobOf(s: seq<byte>, blob: seq<byte>)
  {
    |blob| <= |s| && IsVarint(s[..|s| - |blob|]) && U64(Digits(s[..|s| - |blob|])) == |blob| && s[|s| - |blob|..] == blob
  }

  // The value that a content stands for.
  predicate Means(typ: FieldType, s: seq<byte>, v: Value)
  {
    match typ
    case Float => |s| == 4 && v == VFloat(s[0] + 0x100 * s[1] + 0x1_0000 * s[2] + 0x100_0000 * (s[3] as int))
    case String => v.VString? && BlobOf(s, v.s)
    case Bytes => v.VBytes? && BlobOf(s, v.s)
    case _ => IsVarint(s) && Denotes(typ, U64(Digits(s)), v)
  }

  lemma DenotesRead(typ: FieldType, x: u64, v: Value)
    requires Denotes(typ, x, v)
    ensures WireType(typ) == Some(VARINT) && Proto.FromVarint(typ, x) == v
  {
    hide V.Unzigzag32, V.Unzigzag64, Zigzag;
    if typ.Sint32? {
      V.Unzigzag32Meaning(x % TWO32);
      ZigzagOf(v.i, x % TWO32);
    } else if typ.Sint64? {
      V.Unzigzag64Meaning(x);
      ZigzagOf(v.i, x);
    }
  }

  lemma ZigzagOf(n: int, z: nat)
    requires Zigzag(n) == z
    ensures n == if z % 2 == 0 then z / 2 else -(z / 2) - 1
  {
  }

  lemma BlobRead(s: seq<byte>, blob: seq<byte>, rest: seq<byte>)
    requires BlobOf(s, blob)
    ensures var k := |s| - |blob|;
      TakeBlob(s + rest) == Some((k, |blob|)) && (s + rest)[k..k + |blob|] == blob
  {
    hide V.DecodeFrom, Digits, Delimited, U64;
    var k := |s| - |blob|;
    var head := s[..k];
    ReadIs(head, blob + rest);
    assert s + rest == head + (blob + rest);
  }

  lemma ValueRead(typ: FieldType, s: seq<byte>, v: Value, rest: seq<byte>)
    requires Means(typ, s, v)
    ensures WireNumber(typ).Some? && DecodeValue(s + rest, typ, WireNumber(typ).value) == Some(Taken(v, |s|))
  {
    hide V.DecodeFrom, Digits, Delimited, U64, FromVarint, TakeBlob, BlobOf, Denotes;
    WireTypeIs(typ);
    match typ
    case Float =>
    case String => BlobRead(s, v.s, rest);
    case Bytes => BlobRead(s, v.s, rest);
    case _ =>
      DenotesRead(typ, U64(Digits(s)), v);
      ReadIs(s, rest);
  }

  // A record of a field that the schema has adds the value that its content stands for.
  lemma KnownRead(fields: seq<Field>, out: Message, key: seq<byte>, content: seq<byte>, rest: seq<byte>, f: Field, v: Value)
    requires IsVarint(key) && FindTag(fields, U32(U64(Digits(key)) / 8)) == Some(f)
    requires WireNumber(f.typ) == Some(U64(Digits(key)) % 8) && Means(f.typ, content, v)
    ensures DecodeFrom(fields, out, key + content + rest) == DecodeFrom(fields, Put(out, f, v), rest)
  {
    hide V.DecodeFrom, Digits, Delimited, U64, U32, DecodeValue, Means, FindTag, DecodeFrom, Put, WireNumber;
    var s := key + content + rest;
    assert s == key + (content + rest);
    ReadIs(key, content + rest);
    ValueRead(f.typ, content, v, rest);
    assert s[|key|..] == content + rest && (content + rest)[|content|..] == rest;
    DecodeFromIsStep(fields, out, s);
  }

  // ---------------------------------------------------------------- what the encoder puts out

  // The shortest varint of a number.
  predicate IsPlain(s: seq<byte>, v: nat)
  {
    Delimited(s) && Digits(s) == v && (|s| > 1 ==> s[|s| - 1] != 0)
  }

  lemma {:induction false} EncodeIsPlain(v: nat)
    ensures IsPlain(V.Encode(v), v)
  {
    V.EncodeDigits(v);
    if v >= 0x80 {
      EncodeIsPlain(v / 0x80);
      assert V.Encode(v)[1..] == V.Encode(v / 0x80);
      if |V.Encode(v / 0x80)| == 1 {
        assert V.Encode(v / 0x80)[0] % 0x80 == v / 0x80 % 0x80;
      }
    }
  }

  lemma {:induction false} NoDigits(s: seq<byte>)
    requires Delimited(s) && s[|s| - 1] != 0
    ensures Digits(s) > 0
    decreases |s|
  {
    if s[0] >= 0x80 {
      NoDigits(s[1..]);
    }
  }

  // There is only one.
  lemma {:induction false} PlainUnique(s: seq<byte>, t: seq<byte>, v: nat)
    requires IsPlain(s, v) && IsPlain(t, v)
    ensures s == t
    decreases |s|
  {
    if |s| > 1 && |t| > 1 {
      PlainTail(s, v);
      PlainTail(t, v);
      PlainUnique(s[1..], t[1..], v / 0x80);
      assert s == [s[0]] + s[1..] && t == [t[0]] + t[1..];
    } else {
      PlainShort(s, v);
      PlainShort(t, v);
    }
  }

  lemma PlainTail(s: seq<byte>, v: nat)
    requires IsPlain(s, v) && |s| > 1
    ensures IsPlain(s[1..], v / 0x80) && s[0] == 0x80 + v % 0x80
  {
  }

  lemma PlainShort(s: seq<byte>, v: nat)
    requires IsPlain(s, v)
    ensures |s| == 1 <==> v < 0x80
    ensures |s| == 1 ==> s == [v]
  {
    if |s| > 1 {
      PlainTail(s, v);
      NoDigits(s[1..]);
    } else {
      assert s[1..] == [] && Digits(s[1..]) == 0;
      assert !Delimited(s[1..]);
    }
  }

  // A signed number as it is written: 64 bits, two's complement.
  function Signed(n: V.i64): nat { if n >= 0 then n else n + TWO64 }

  // The bytes stand for the value, in a field of the type.
  predicate Carries(typ: FieldType, v: Value, s: seq<byte>)
  {
    match typ
    case Bool => v.VBool? && IsPlain(s, if v.b then 1 else 0)
    case Int32 | Int64 => (v.VInt? && IsPlain(s, Signed(v.i))) || (v.VUint? && IsPlain(s, v.u))
    case Uint32 | Uint64 => (v.VInt? && v.i >= 0 && IsPlain(s, v.i)) || (v.VUint? && IsPlain(s, v.u))
    case Sint32 => (v.VInt? && IsPlain(s, Zigzag(Low32(v.i)))) || (v.VUint? && IsPlain(s, Zigzag(Low32(v.u))))
    case Sint64 => (v.VInt? && IsPlain(s, Zigzag(v.i))) || (v.VUint? && IsPlain(s, Zigzag(V.I64(v.u))))
    case Float => v.VFloat? && |s| == 4 && v.bits == s[0] + 0x100 * s[1] + 0x1_0000 * s[2] + 0x100_0000 * (s[3] as int)
    case String => v.VString? && CarriesBlob(v.s, s)
    case Bytes => v.VBytes? && CarriesBlob(v.s, s)
    case Unknown(_) => false
  }

  predicate CarriesBlob(blob: seq<byte>, s: seq<byte>)
  {
    |blob| <= |s| && IsPlain(s[..|s| - |blob|], |blob|) && s[|s| - |blob|..] == blob
  }

  lemma ZigzagIs(n: V.i64)
    ensures V.Zigzag64(n) == Zigzag(n)
    ensures V.Zigzag32(V.I32(V.Bits64(n))) == Zigzag(Low32(n))
  {
    V.Zigzag64Meaning(n);
    V.Zigzag32Meaning(V.I32(V.Bits64(n)));
    SameLow32(n);
  }

  lemma SameLow32(n: V.i64)
    ensures V.I32(V.Bits64(n)) == Low32(n)
  {
  }

  lemma Reread(u: u64)
    ensures Low32(V.I64(u)) == Low32(u) && V.Bits64(V.I64(u)) == u
  {
    LessTwo64(u);
    assert u % TWO64 == u;
  }

  lemma LessTwo64(u: u64)
    ensures (u - 0x1_0000_0000_0000_0000) % 0x1_0000_0000 == u % 0x1_0000_0000
    ensures (u - 0x1_0000_0000_0000_0000) % 0x1_0000_0000_0000_0000 == u
  {
  }

  lemma VarintMeans(typ: FieldType, v: Value)
    requires WireType(typ) == Some(VARINT) && EncodeValue(typ, v).Some?
    ensures var x := VarintOf(typ, v); forall s :: IsPlain(s, x) ==> Carries(typ, v, s)
  {
    hide V.Encode, IsPlain, V.Zigzag32, V.Zigzag64, Zigzag, Low32, V.I32, V.I64, V.Bits64;
    if ToInt64(v).Some? {
      ZigzagIs(ToInt64(v).value);
      SignedIs(ToInt64(v).value);
    }
    if v.VUint? {
      Reread(v.u);
    }
  }

  lemma SignedIs(n: V.i64)
    ensures V.Bits64(n) == Signed(n)
  {
  }

  lemma FloatCarried(bits: u32)
    ensures Carries(Float, VFloat(bits), ToLe(bits, 4))
  {
    hide ToLe, FromLe, Pow2;
    FromLeFour(ToLe(bits, 4));
    Pow2Values();
    FromLeToLe(bits, 4);
  }

  lemma BlobCarried(blob: seq<byte>)
    requires |blob| < TWO64
    ensures CarriesBlob(blob, V.Encode(U64(|blob|)) + blob)
  {
    hide V.Encode, IsPlain;
    EncodeIsPlain(|blob|);
    var k := V.Encode(|blob|);
    assert (k + blob)[..|k|] == k && (k + blob)[|k|..] == blob;
  }

  lemma ValueCarried(typ: FieldType, v: Value)
    requires EncodeValue(typ, v).Some? && Sized(v)
    ensures Carries(typ, v, EncodeValue(typ, v).value)
  {
    hide V.Encode, IsPlain, ToLe, CarriesBlob, VarintOf, V.Zigzag32, V.Zigzag64;
    if WireType(typ) == Some(VARINT) {
      VarintCoerces(typ, v);
      EncodeIsPlain(VarintOf(typ, v));
      VarintMeans(typ, v);
    } else if typ.Float? {
      FloatCarried(v.bits);
    } else {
      BlobCarried(v.s);
    }
  }

  // The record of one element: key and content.
  ghost predicate IsElement(f: Field, v: Value, s: seq<byte>)
  {
    exists k :: 0 <= k <= |s| && ElementAt(f, v, s, k)
  }

  predicate ElementAt(f: Field, v: Value, s: seq<byte>, k: nat)
    requires k <= |s|
  {
    WireNumber(f.typ).Some? && IsPlain(s[..k], 8 * f.tag + WireNumber(f.typ).value) && Carries(f.typ, v, s[k..])
  }

  // A cut of the string: the first part is the first element's record, the rest is that of the others.
  ghost predicate IsElements(f: Field, elems: seq<Value>, s: seq<byte>)
    decreases |elems|
  {
    if elems == [] then s == []
    else exists n :: 0 <= n <= |s| && IsElement(f, elems[0], s[..n]) && IsElements(f, elems[1..], s[n..])
  }

  // One field: nothing if it is missing, one record, or one for each element.
  ghost predicate IsField(f: Field, values: Message, s: seq<byte>)
  {
    if f.name !in values then s == []
    else if f.repeated then values[f.name].VList? && IsElements(f, values[f.name].elems, s)
    else IsElement(f, values[f.name], s)
  }

  // All fields, in the order of the schema.
  ghost predicate IsMessage(fields: seq<Field>, values: Message, s: seq<byte>)
    decreases |fields|
  {
    if fields == [] then s == []
    else exists n :: 0 <= n <= |s| && IsField(fields[0], values, s[..n]) && IsMessage(fields[1..], values, s[n..])
  }

  // Lengths are 64-bit numbers.
  ghost predicate AllSized(values: Message)
  {
    forall name :: name in values ==>
      && Sized(values[name])
      && (values[name].VList? ==> forall i :: 0 <= i < |values[name].elems| ==> Sized(values[name].elems[i]))
  }

  lemma ElementEmitted(f: Field, v: Value)
    requires ValidTag(f.tag) && WireType(f.typ).Some? && EncodeValue(f.typ, v).Some? && Sized(v)
    ensures IsElement(f, v, TagBytes(f.tag, WireType(f.typ).value) + EncodeValue(f.typ, v).value)
  {
    hide V.Encode, IsPlain, Carries, EncodeValue;
    var key, content := TagBytes(f.tag, WireType(f.typ).value), EncodeValue(f.typ, v).value;
    WireTypeIs(f.typ);
    EncodeIsPlain(f.tag * 8 + WireType(f.typ).value);
    ValueCarried(f.typ, v);
    assert (key + content)[..|key|] == key && (key + content)[|key|..] == content;
    assert ElementAt(f, v, key + content, |key|);
  }

  lemma {:induction false} ElementsEmitted(f: Field, elems: seq<Value>)
    requires ValidTag(f.tag) && EncodeElems(f, elems).Some? && forall i :: 0 <= i < |elems| ==> Sized(elems[i])
    ensures IsElements(f, elems, EncodeElems(f, elems).value)
    decreases |elems|
  {
    hide IsElement, TagBytes, EncodeValue;
    if elems != [] {
      ElementsEmitted(f, elems[1..]);
      ElementEmitted(f, elems[0]);
      var head := TagBytes(f.tag, WireType(f.typ).value) + EncodeValue(f.typ, elems[0]).value;
      var s := EncodeElems(f, elems).value;
      assert s[..|head|] == head && s[|head|..] == EncodeElems(f, elems[1..]).value;
    }
  }

  lemma FieldEmitted(f: Field, values: Message)
    requires ValidTag(f.tag) && EncodeField(f, values).Some? && AllSized(values)
    ensures IsField(f, values, EncodeField(f, values).value)
  {
    hide IsElement;
    if f.name in values {
      if f.repeated {
        ElementsEmitted(f, values[f.name].elems);
      } else {
        ElementsEmitted(f, [values[f.name]]);
        OneElement(f, values[f.name], EncodeField(f, values).value);
      }
    }
  }

  lemma OneElement(f: Field, v: Value, s: seq<byte>)
    requires IsElements(f, [v], s)
    ensures IsElement(f, v, s)
  {
    hide IsElement;
    var n :| 0 <= n <= |s| && IsElement(f, [v][0], s[..n]) && IsElements(f, [v][1..], s[n..]);
    assert s[n..] == [] && s[..n] == s;
  }

  // What EncodeProto accepts, it writes as the encoding prescribes.
  lemma {:induction false} EncoderConforms(fields: seq<Field>, values: Message)
    requires WellFormed(fields) && AllSized(values) && EncodeFields(fields, values).Some?
    ensures IsMessage(fields, values, EncodeFields(fields, values).value)
    decreases |fields|
  {
    hide IsField, EncodeField, AllSized;
    if fields != [] {
      EncoderConforms(fields[1..], values);
      FieldEmitted(fields[0], values);
      var head := EncodeField(fields[0], values).value;
      var s := EncodeFields(fields, values).value;
      assert s[..|head|] == head && s[|head|..] == EncodeFields(fields[1..], values).value;
    }
  }

  // ---------------------------------------------------------------- and only that

  lemma FourBytesUnique(s: seq<byte>, t: seq<byte>)
    requires |s| == |t| == 4
    requires s[0] + 0x100 * s[1] + 0x1_0000 * s[2] + 0x100_0000 * (s[3] as int)
             == t[0] + 0x100 * t[1] + 0x1_0000 * t[2] + 0x100_0000 * (t[3] as int)
    ensures s == t
  {
    hide FromLe, ToLe;
    FromLeFour(s);
    FromLeFour(t);
    ToLeFromLe(s);
    ToLeFromLe(t);
  }

  lemma BlobUnique(blob: seq<byte>, s: seq<byte>, t: seq<byte>)
    requires CarriesBlob(blob, s) && CarriesBlob(blob, t)
    ensures s == t
  {
    hide IsPlain;
    var m, n := |s| - |blob|, |t| - |blob|;
    PlainUnique(s[..m], t[..n], |blob|);
    assert s == s[..m] + s[m..] && t == t[..n] + t[n..];
  }

  lemma CarriedUnique(typ: FieldType, v: Value, s: seq<byte>, t: seq<byte>)
    requires Carries(typ, v, s) && Carries(typ, v, t)
    ensures s == t
  {
    hide IsPlain, CarriesBlob, Signed, Zigzag, Low32, V.I64;
    if typ.Float? {
      FourBytesUnique(s, t);
    } else if typ.String? || typ.Bytes? {
      BlobUnique(v.s, s, t);
    } else {
      var x :| IsPlain(s, x) && IsPlain(t, x);
      PlainUnique(s, t, x);
    }
  }

  lemma ElementUnique(f: Field, v: Value, s: seq<byte>, t: seq<byte>)
    requires IsElement(f, v, s) && IsElement(f, v, t)
    ensures s == t
  {
    hide IsPlain, Carries;
    var k :| 0 <= k <= |s| && ElementAt(f, v, s, k);
    var l :| 0 <= l <= |t| && ElementAt(f, v, t, l);
    PlainUnique(s[..k], t[..l], 8 * f.tag + WireNumber(f.typ).value);
    CarriedUnique(f.typ, v, s[k..], t[l..]);
    assert s == s[..k] + s[k..] && t == t[..l] + t[l..];
  }

  lemma {:induction false} ElementsUnique(f: Field, elems: seq<Value>, s: seq<byte>, t: seq<byte>)
    requires IsElements(f, elems, s) && IsElements(f, elems, t)
    ensures s == t
    decreases |elems|
  {
    hide IsElement;
    if elems != [] {
      var m :| 0 <= m <= |s| && IsElement(f, elems[0], s[..m]) && IsElements(f, elems[1..], s[m..]);
      var n :| 0 <= n <= |t| && IsElement(f, elems[0], t[..n]) && IsElements(f, elems[1..], t[n..]);
      ElementUnique(f, elems[0], s[..m], t[..n]);
      ElementsUnique(f, elems[1..], s[m..], t[n..]);
      assert s == s[..m] + s[m..] && t == t[..n] + t[n..];
    }
  }

  lemma FieldUnique(f: Field, values: Message, s: seq<byte>, t: seq<byte>)
    requires IsField(f, values, s) && IsField(f, values, t)
    ensures s == t
  {
    hide IsElement, IsElements;
    if f.name in values {
      if f.repeated {
        ElementsUnique(f, values[f.name].elems, s, t);
      } else {
        ElementUnique(f, values[f.name], s, t);
      }
    }
  }

  lemma {:induction false} MessageUnique(fields: seq<Field>, values: Message, s: seq<byte>, t: seq<byte>)
    requires IsMessage(fields, values, s) && IsMessage(fields, values, t)
    ensures s == t
    decreases |fields|
  {
    hide IsField;
    if fields != [] {
      var m :| 0 <= m <= |s| && IsField(fields[0], values, s[..m]) && IsMessage(fields[1..], values, s[m..]);
      var n :| 0 <= n <= |t| && IsField(fields[0], values, t[..n]) && IsMessage(fields[1..], values, t[n..]);
      FieldUnique(fields[0], values, s[..m], t[..n]);
      MessageUnique(fields[1..], values, s[m..], t[n..]);
      assert s == s[..m] + s[m..] && t == t[..n] + t[n..];
    }
  }

  // What the encoding has a form for, the encoder accepts.
  lemma CarriedIsEncoded(typ: FieldType, v: Value, s: seq<byte>)
    requires Carries(typ, v, s)
    ensures EncodeValue(typ, v).Some?
  {
    hide IsPlain, CarriesBlob;
  }

  lemma {:induction false} ElementsAccepted(f: Field, elems: seq<Value>, s: seq<byte>)
    requires IsElements(f, elems, s)
    ensures EncodeElems(f, elems).Some?
    decreases |elems|
  {
    hide IsPlain, Carries, EncodeValue, TagBytes;
    if elems != [] {
      var n :| 0 <= n <= |s| && IsElement(f, elems[0], s[..n]) && IsElements(f, elems[1..], s[n..]);
      ElementAccepted(f, elems[0], s[..n]);
      ElementsAccepted(f, elems[1..], s[n..]);
    }
  }

  lemma ElementAccepted(f: Field, v: Value, s: seq<byte>)
    requires IsElement(f, v, s)
    ensures WireType(f.typ).Some? && EncodeValue(f.typ, v).Some?
  {
    hide IsPlain, Carries;
    var k :| 0 <= k <= |s| && ElementAt(f, v, s, k);
    WireTypeIs(f.typ);
    CarriedIsEncoded(f.typ, v, s[k..]);
  }

  lemma FieldAccepted(f: Field, values: Message, s: seq<byte>)
    requires !f.typ.Unknown? && IsField(f, values, s)
    ensures EncodeField(f, values).Some?
  {
    hide IsElement, EncodeValue, TagBytes;
    if f.name in values {
      if f.repeated {
        ElementsAccepted(f, values[f.name].elems, s);
      } else {
        ElementAccepted(f, values[f.name], s);
        assert [values[f.name]][1..] == [] && EncodeElems(f, []) == Some([]);
        assert EncodeElems(f, [values[f.name]]).Some?;
      }
    }
  }

  lemma {:induction false} MessageAccepted(fields: seq<Field>, values: Message, s: seq<byte>)
    requires WellFormed(fields) && IsMessage(fields, values, s)
    ensures EncodeFields(fields, values).Some?
    decreases |fields|
  {
    hide IsField, EncodeField;
    if fields != [] {
      var n :| 0 <= n <= |s| && IsField(fields[0], values, s[..n]) && IsMessage(fields[1..], values, s[n..]);
      FieldAccepted(fields[0], values, s[..n]);
      MessageAccepted(fields[1..], values, s[n..]);
    }
  }

  // EncodeProto puts out exactly what the encoding prescribes, and fails exactly where it prescribes nothing.
  lemma EncodesIff(fields: seq<Field>, values: Message, s: seq<byte>)
    requires WellFormed(fields) && AllSized(values)
    ensures EncodeFields(fields, values) == Some(s) <==> IsMessage(fields, values, s)
  {
    hide IsMessage, AllSized, EncodeFields, WellFormed;
    if EncodeFields(fields, values).Some? {
      EncoderConforms(fields, values);
    }
    if IsMessage(fields, values, s) {
      MessageAccepted(fields, values, s);
      EncoderConforms(fields, values);
      MessageUnique(fields, values, s, EncodeFields(fields, values).value);
    }
  }
}
