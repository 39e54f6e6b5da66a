/**
The schema-driven protobuf codec of the Go bridge: a printer, a parser, and the laws that tie them.

A float is its 32-bit pattern, and a string is its bytes.
*/
module Proto {
  import opened Options
  import opened Words
  import opened Schema
  import V = Varint

  datatype Value =
    | VBool(b: bool)
    | VInt(i: V.i64)
    | VUint(u: u64)
    | VFloat(bits: u32)
    | VString(s: seq<byte>)
    | VBytes(s: seq<byte>)
    | VList(elems: seq<Value>)

  datatype Taken = Taken(value: Value, n: nat)

  type Message = map<string, Value>

  const VARINT: nat := 0
  const LEN: nat := 2
  const FIXED32: nat := 5

  function WireType(typ: FieldType): (wt: Option<nat>)
    ensures wt.Some? ==> wt.value == VARINT || wt.value == LEN || wt.value == FIXED32
  {
    match typ
    case Float => Some(FIXED32)
    case String | Bytes => Some(LEN)
    case Unknown(_) => None
    case _ => Some(VARINT)
  }

  // ---------------------------------------------------------------- values

  // toInt64 and toUint64 on the integer kinds.
  function ToInt64(v: Value): Option<V.i64>
  {
    match v
    case VInt(i) => Some(i)
    case VUint(u) => Some(V.I64(u))
    case _ => None
  }

  function ToUint64(v: Value): Option<u64>
  {
    match v
    case VInt(i) => if i < 0 then None else Some(i)
    case VUint(u) => Some(u)
    case _ => None
  }

  // appendValue: the bytes put on the buffer, or a type error.
  function EncodeValue(typ: FieldType, v: Value): Option<seq<byte>>
  {
    match typ
    case Bool => if v.VBool? then Some(V.Encode(if v.b then 1 else 0)) else None
    case Int32 | Int64 =>
      (match ToInt64(v) case Some(n) => Some(V.Encode(V.Bits64(n))) case None => None)
    case Uint32 | Uint64 =>
      (match ToUint64(v) case Some(n) => Some(V.Encode(n)) case None => None)
    case Sint32 =>
      (match ToInt64(v) case Some(n) => Some(V.Encode(V.Zigzag32(V.I32(V.Bits64(n))))) case None => None)
    case Sint64 =>
      (match ToInt64(v) case Some(n) => Some(V.Encode(V.Zigzag64(n))) case None => None)
    case Float => if v.VFloat? then Some(ToLe(v.bits, 4)) else None
    case String => if v.VString? then Some(V.Encode(U64(|v.s|)) + v.s) else None
    case Bytes => if v.VBytes? then Some(V.Encode(U64(|v.s|)) + v.s) else None
    case Unknown(_) => None
  }

  // The varint kinds of decodeValue.
  function FromVarint(typ: FieldType, v: u64): Value
    requires WireType(typ) == Some(VARINT)
  {
    match typ
    case Bool => VBool(v != 0)
    case Int32 => VInt(V.I32(U32(v)))
    case Int64 => VInt(V.I64(v))
    case Uint32 => VUint(U32(v))
    case Uint64 => VUint(v)
    case Sint32 => VInt(V.Unzigzag32(U32(v)))
    case Sint64 => VInt(V.Unzigzag64(v))
  }

  // A length prefix and that many bytes; an unsigned comparison guards against overrun.
  function TakeBlob(data: seq<byte>): (r: Option<(nat, nat)>)
    ensures r.Some? ==> 0 < r.value.0 && r.value.0 + r.value.1 <= |data|
  {
    match V.Decode(data)
    case None => None
    case Some(l) =>
      V.DecodeBounds(data, 0, 0);
      if l.val > |data| - l.n then None else Some((l.n, l.val))
  }

  // decodeValue
  function DecodeValue(data: seq<byte>, typ: FieldType, wt: nat): (r: Option<Taken>)
    ensures r.Some? ==> 0 < r.value.n <= |data|
  {
    if WireType(typ) != Some(wt) then None
    else if wt == VARINT then
      match V.Decode(data)
      case None => None
      case Some(l) =>
        V.DecodeBounds(data, 0, 0);
        Some(Taken(FromVarint(typ, l.val), l.n))
    else if wt == FIXED32 then
      if |data| < 4 then None else Some(Taken(VFloat(Load32(data, 0)), 4))
    else
      match TakeBlob(data)
      case None => None
      case Some((n, len)) =>
        var s := data[n..n + len];
        Some(Taken(if typ.String? then VString(s) else VBytes(s), n + len))
  }

  // skipField
  function SkipField(data: seq<byte>, wt: nat): (r: Option<nat>)
    ensures r.Some? ==> 0 < r.value <= |data|
  {
    if wt == VARINT then
      match V.Decode(data)
      case None => None
      case Some(l) =>
        V.DecodeBounds(data, 0, 0);
        Some(l.n)
    else if wt == FIXED32 then
      if |data| < 4 then None else Some(4)
    else if wt == LEN then
      match TakeBlob(data)
      case None => None
      case Some((n, len)) => Some(n + len)
    else None
  }

  // ---------------------------------------------------------------- messages

  function FindTag(fields: seq<Field>, tag: u32): Option<Field>
  {
    if fields == [] then None else if fields[0].tag == tag then Some(fields[0]) else FindTag(fields[1..], tag)
  }

  function Put(out: Message, f: Field, v: Value): Message
  {
    if f.repeated then
      var cur := if f.name in out && out[f.name].VList? then out[f.name].elems else [];
      out[f.name := VList(cur + [v])]
    else out[f.name := v]
  }

  function TagBytes(tag: u32, wt: nat): seq<byte>
    requires wt < 8
  {
    V.Encode(U64(tag * 8 + wt))
  }

  function Prepend(a: seq<byte>, b: Option<seq<byte>>): Option<seq<byte>>
  {
    match b case None => None case Some(s) => Some(a + s)
  }

  function EncodeElems(f: Field, elems: seq<Value>): Option<seq<byte>>
  {
    if elems == [] then Some([])
    else match (WireType(f.typ), EncodeValue(f.typ, elems[0]))
      case (Some(wt), Some(bs)) => Prepend(TagBytes(f.tag, wt) + bs, EncodeElems(f, elems[1..]))
      case _ => None
  }

  // One field of EncodeProto; a missing field is elided.
  function EncodeField(f: Field, values: Message): Option<seq<byte>>
  {
    if f.name !in values then Some([])
    else if WireType(f.typ).None? then None
    else if f.repeated then (if values[f.name].VList? then EncodeElems(f, values[f.name].elems) else None)
    else EncodeElems(f, [values[f.name]])
  }

  function EncodeFields(fields: seq<Field>, values: Message): Option<seq<byte>>
  {
    if fields == [] then Some([])
    else match EncodeField(fields[0], values)
      case Some(bs) => Prepend(bs, EncodeFields(fields[1..], values))
      case None => None
  }

  // DecodeProto from a partial result. Every turn of the loop consumes input.
  function DecodeFrom(fields: seq<Field>, out: Message, body: seq<byte>): Option<Message>
    decreases |body|
  {
    if body == [] then Some(out)
    else match V.Decode(body)
      case None => None
      case Some(key) =>
        V.DecodeBounds(body, 0, 0);
        var tag, wt, rest := U32(key.val / 8), key.val % 8, body[key.n..];
        match FindTag(fields, tag)
        case None => (match SkipField(rest, wt) case None => None case Some(n) => DecodeFrom(fields, out, rest[n..]))
        case Some(f) =>
          match DecodeValue(rest, f.typ, wt)
          case None => None
          case Some(t) => DecodeFrom(fields, Put(out, f, t.value), rest[t.n..])
  }

  // ---------------------------------------------------------------- the loops of the source

  lemma {:induction false} FindTagIndexed(fields: seq<Field>, i: nat)
    requires i < |fields| && forall j :: 0 <= j < i ==> fields[j].tag != fields[i].tag
    ensures FindTag(fields, fields[i].tag) == Some(fields[i])
  {
    if i > 0 {
      FindTagIndexed(fields[1..], i - 1);
    }
  }

  lemma {:induction false} FindTagMember(fields: seq<Field>, tag: u32)
    ensures match FindTag(fields, tag)
      case Some(f) => f in fields && f.tag == tag
      case None => forall i :: 0 <= i < |fields| ==> fields[i].tag != tag
  {
    if fields != [] {
      FindTagMember(fields[1..], tag);
    }
  }

  // The lookup table of a valid schema finds what a search finds.
  lemma LookupIsFind(s: Schema, tag: u32)
    requires Valid(s)
    ensures FindTag(s.fields, tag) == if tag in s.byTag then Some(s.fields[s.byTag[tag]]) else None
  {
    FindTagMember(s.fields, tag);
    if tag in s.byTag {
      FindTagIndexed(s.fields, s.byTag[tag]);
    }
  }

  method DecodeProto(s: Schema, body: seq<byte>) returns (r: Option<Message>)
    requires Valid(s)
    ensures r == DecodeFrom(s.fields, map[], body)
  {
    hide DecodeValue, SkipField, Put, FindTag, V.DecodeFrom;
    var out: Message := map[];
    var i := 0;
    while i < |body|
      invariant 0 <= i <= |body|
      invariant DecodeFrom(s.fields, out, body[i..]) == DecodeFrom(s.fields, map[], body)
    {
      ghost var here := body[i..];
      V.DecodeBounds(here, 0, 0);
      var key, n, ok := V.ReadVarint(body[i..]);
      if !ok {
        return None;
      }
      i := i + n;
      assert body[i..] == here[n..];
      var tag, wt := U32(key / 8), key % 8;
      LookupIsFind(s, tag);
      if tag !in s.byTag {
        var skip := SkipField(body[i..], wt);
        if skip.None? {
          return None;
        }
        assert here[n..][skip.value..] == body[i + skip.value..];
        i := i + skip.value;
      } else {
        var f := s.fields[s.byTag[tag]];
        var taken := DecodeValue(body[i..], f.typ, wt);
        if taken.None? {
          return None;
        }
        assert here[n..][taken.value.n..] == body[i + taken.value.n..];
        i := i + taken.value.n;
        out := Put(out, f, taken.value.value);
      }
    }
    return Some(out);
  }

  lemma PrependTwice(a: seq<byte>, b: seq<byte>, r: Option<seq<byte>>)
    ensures Prepend(a + b, r) == Prepend(a, Prepend(b, r)) && Prepend([], r) == r
  {
    if r.Some? {
      assert (a + b) + r.value == a + (b + r.value) && [] + r.value == r.value;
    }
  }

  // The inner step of EncodeProto: the tag and value of each element.
  method AppendElems(buf: seq<byte>, f: Field, elems: seq<Value>) returns (r: Option<seq<byte>>)
    ensures r == Prepend(buf, EncodeElems(f, elems))
  {
    hide EncodeValue, TagBytes;
    var wt := WireType(f.typ);
    var out := buf;
    assert elems[0..] == elems;
    for e := 0 to |elems|
      invariant Prepend(out, EncodeElems(f, elems[e..])) == Prepend(buf, EncodeElems(f, elems))
    {
      assert elems[e..][1..] == elems[e + 1..];
      var bs := EncodeValue(f.typ, elems[e]);
      if wt.None? || bs.None? {
        return None;
      }
      PrependTwice(out, TagBytes(f.tag, wt.value) + bs.value, EncodeElems(f, elems[e + 1..]));
      assert out + TagBytes(f.tag, wt.value) + bs.value == out + (TagBytes(f.tag, wt.value) + bs.value);
      out := out + TagBytes(f.tag, wt.value) + bs.value;
    }
    assert elems[|elems|..] == [] && out + [] == out;
    return Some(out);
  }

  method EncodeProto(s: Schema, values: Message) returns (r: Option<seq<byte>>)
    ensures r == EncodeFields(s.fields, values)
  {
    hide EncodeElems;
    var buf: seq<byte> := [];
    ghost var all := EncodeFields(s.fields, values);
    PrependTwice([], [], all);
    assert s.fields[0..] == s.fields;
    for k := 0 to |s.fields|
      invariant Prepend(buf, EncodeFields(s.fields[k..], values)) == all
    {
      var f := s.fields[k];
      ghost var rest := EncodeFields(s.fields[k + 1..], values);
      assert s.fields[k..][0] == f && s.fields[k..][1..] == s.fields[k + 1..];
      PrependTwice([], [], rest);
      if f.name !in values {
        continue;
      }
      var v := values[f.name];
      if WireType(f.typ).None? || (f.repeated && !v.VList?) {
        return None;
      }
      var out := AppendElems(buf, f, if f.repeated then v.elems else [v]);
      if out.None? {
        return None;
      }
      ghost var field := EncodeField(f, values);
      PrependTwice(buf, field.value, rest);
      buf := out.value;
    }
    assert s.fields[|s.fields|..] == [] && buf + [] == buf;
    return Some(buf);
  }
}
