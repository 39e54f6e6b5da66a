/**
Decoding what was encoded: the values come back, reduced to their field's type, with empty lists dropped
and unknown names gone. Values that are in range come back exactly.
*/
module ProtoRoundTrip {
  import opened Options
  import opened Bits
  import opened Words
  import opened Schema
  import opened Proto
  import opened ProtoLaws
  import V = Varint

  // ---------------------------------------------------------------- one value

  // What a value accepted for a type becomes on the other side.
  function Coerce(typ: FieldType, v: Value): Value
  {
    match typ
    case Int32 | Sint32 => (match ToInt64(v) case Some(n) => VInt(V.I32(V.Bits64(n))) case None => v)
    case Int64 | Sint64 => (match ToInt64(v) case Some(n) => VInt(n) case None => v)
    case Uint32 => (match ToUint64(v) case Some(n) => VUint(U32(n)) case None => v)
    case Uint64 => (match ToUint64(v) case Some(n) => VUint(n) case None => v)
    case _ => v
  }

  predicate InRange(typ: FieldType, v: Value)
  {
    match typ
    case Bool => v.VBool?
    case Int32 | Sint32 => v.VInt? && -0x8000_0000 <= v.i < 0x8000_0000
    case Int64 | Sint64 => v.VInt?
    case Uint32 => v.VUint? && v.u < 0x1_0000_0000
    case Uint64 => v.VUint?
    case Float => v.VFloat?
    case String => v.VString?
    case Bytes => v.VBytes?
    case Unknown(_) => false
  }

  // A byte string short enough for its length to be a 64-bit number.
  predicate Sized(v: Value)
  {
    match v
    case VString(s) => |s| < TWO64
    case VBytes(s) => |s| < TWO64
    case _ => true
  }

  lemma InRangeIsFixed(typ: FieldType, v: Value)
    requires InRange(typ, v)
    ensures Coerce(typ, v) == v && EncodeValue(typ, v).Some?
  {
    if v.VInt? {
      V.SignedRoundTrip(v.i);
    }
  }

  lemma TruncatedBits(n: V.i64)
    ensures V.I32(U32(V.Bits64(n))) == V.I32(V.Bits64(n)) && V.I64(V.Bits64(n)) == n
  {
    V.SignedRoundTrip(n);
  }

  // The varint written for a value, and the value read back from it.
  function VarintOf(typ: FieldType, v: Value): u64
    requires WireType(typ) == Some(VARINT) && EncodeValue(typ, v).Some?
  {
    match typ
    case Bool => if v.b then 1 else 0
    case Int32 | Int64 => V.Bits64(ToInt64(v).value)
    case Uint32 | Uint64 => ToUint64(v).value
    case Sint32 => V.Zigzag32(V.I32(V.Bits64(ToInt64(v).value)))
    case Sint64 => V.Zigzag64(ToInt64(v).value)
  }

  lemma VarintCoerces(typ: FieldType, v: Value)
    requires WireType(typ) == Some(VARINT) && EncodeValue(typ, v).Some?
    ensures EncodeValue(typ, v) == Some(V.Encode(VarintOf(typ, v)))
    ensures FromVarint(typ, VarintOf(typ, v)) == Coerce(typ, v)
  {
    hide V.Zigzag32, V.Zigzag64, V.Unzigzag32, V.Unzigzag64, V.Encode;
    if ToInt64(v).Some? {
      var n := ToInt64(v).value;
      TruncatedBits(n);
      V.ZigzagRoundTrip(n);
      V.ZigzagRoundTrip(V.I32(V.Bits64(n)));
    }
  }

  lemma BlobRoundTrip(s: seq<byte>, rest: seq<byte>)
    requires |s| < TWO64
    ensures var bs := V.Encode(U64(|s|)) + s;
      var r := TakeBlob(bs + rest);
      r.Some? && r.value.1 == |s| && r.value.0 + |s| == |bs| && (bs + rest)[r.value.0..r.value.0 + |s|] == s
  {
    hide V.Encode, V.DecodeFrom;
    var head := V.Encode(|s|);
    V.RoundTrip(|s|, s + rest);
    assert head + s + rest == head + (s + rest);
  }

  lemma FloatRoundTrip(bits: u32, rest: seq<byte>)
    ensures Load32(ToLe(bits, 4) + rest, 0) == bits
  {
    hide ToLe, Load32, FromLe;
    Pow2Values();
    var s := ToLe(bits, 4) + rest;
    Load32IsFromLe(s, 0);
    assert s[0..4] == ToLe(bits, 4);
    FromLeToLe(bits, 4);
  }

  lemma ValueRoundTrip(typ: FieldType, v: Value, rest: seq<byte>)
    requires EncodeValue(typ, v).Some? && Sized(v)
    ensures WireType(typ).Some?
    ensures var bs := EncodeValue(typ, v).value;
      DecodeValue(bs + rest, typ, WireType(typ).value) == Some(Taken(Coerce(typ, v), |bs|))
  {
    hide V.Encode, V.DecodeFrom, FromVarint, ToLe, Load32, TakeBlob;
    var bs := EncodeValue(typ, v).value;
    if WireType(typ) == Some(VARINT) {
      VarintCoerces(typ, v);
      V.RoundTrip(VarintOf(typ, v), rest);
    } else if typ.Float? {
      FloatRoundTrip(v.bits, rest);
    } else {
      BlobRoundTrip(v.s, rest);
    }
  }

  // ---------------------------------------------------------------- one field

  lemma TagRoundTrip(tag: u32, wt: nat, rest: seq<byte>)
    requires ValidTag(tag) && wt < 8
    ensures var r := V.Decode(TagBytes(tag, wt) + rest);
      r == Some(V.Read(tag * 8 + wt, |TagBytes(tag, wt)|)) && U32(r.value.val / 8) == tag && r.value.val % 8 == wt
  {
    hide V.Encode, V.DecodeFrom;
    V.RoundTrip(U64(tag * 8 + wt), rest);
  }

  lemma FieldIsFound(fields: seq<Field>, f: Field)
    requires WellFormed(fields) && f in fields
    ensures FindTag(fields, f.tag) == Some(f)
  {
    var i :| 0 <= i < |fields| && fields[i] == f;
    FindTagIndexed(fields, i);
  }

  lemma ElementRoundTrip(fields: seq<Field>, out: Message, f: Field, v: Value)
    requires WellFormed(fields) && f in fields
    requires EncodeValue(f.typ, v).Some? && Sized(v) && WireType(f.typ).Some?
    ensures DecodeFrom(fields, out, TagBytes(f.tag, WireType(f.typ).value) + EncodeValue(f.typ, v).value)
            == Some(Put(out, f, Coerce(f.typ, v)))
  {
    hide V.DecodeFrom, V.Encode, EncodeValue, DecodeValue, Put, FindTag, SkipField, Coerce;
    var tagBytes, bs := TagBytes(f.tag, WireType(f.typ).value), EncodeValue(f.typ, v).value;
    var body := tagBytes + bs;
    assert |tagBytes| > 0;
    TagRoundTrip(f.tag, WireType(f.typ).value, bs);
    assert body[|tagBytes|..] == bs;
    FieldIsFound(fields, f);
    assert bs + [] == bs;
    ValueRoundTrip(f.typ, v, []);
    assert bs[|bs|..] == [];
  }

  function CoerceAll(typ: FieldType, elems: seq<Value>): (r: seq<Value>)
    ensures |r| == |elems|
  {
    seq(|elems|, i requires 0 <= i < |elems| => Coerce(typ, elems[i]))
  }

  function PutAll(out: Message, f: Field, elems: seq<Value>): Message
    decreases |elems|
  {
    if elems == [] then out else PutAll(Put(out, f, elems[0]), f, elems[1..])
  }

  lemma {:induction false} ElementsRoundTrip(fields: seq<Field>, out: Message, f: Field, elems: seq<Value>)
    requires WellFormed(fields) && f in fields
    requires EncodeElems(f, elems).Some? && forall i :: 0 <= i < |elems| ==> Sized(elems[i])
    ensures DecodeFrom(fields, out, EncodeElems(f, elems).value) == Some(PutAll(out, f, CoerceAll(f.typ, elems)))
    decreases |elems|
  {
    hide DecodeFrom, TagBytes, EncodeValue, Put, Coerce;
    if elems == [] {
      EmptyBody(fields, out);
    } else {
      var head := TagBytes(f.tag, WireType(f.typ).value) + EncodeValue(f.typ, elems[0]).value;
      var out' := Put(out, f, Coerce(f.typ, elems[0]));
      ElementRoundTrip(fields, out, f, elems[0]);
      ElementsRoundTrip(fields, out', f, elems[1..]);
      DecodeConcat(fields, out, head, EncodeElems(f, elems[1..]).value);
      assert CoerceAll(f.typ, elems)[1..] == CoerceAll(f.typ, elems[1..]);
    }
  }

  lemma EmptyBody(fields: seq<Field>, out: Message)
    ensures DecodeFrom(fields, out, []) == Some(out)
  {
  }

  lemma {:induction false} PutAllRepeated(out: Message, f: Field, elems: seq<Value>)
    requires f.repeated
    ensures PutAll(out, f, elems)
            == if elems == [] then out
               else out[f.name := VList((if f.name in out && out[f.name].VList? then out[f.name].elems else []) + elems)]
    decreases |elems|
  {
    if elems != [] {
      PutAllRepeated(Put(out, f, elems[0]), f, elems[1..]);
      var cur := if f.name in out && out[f.name].VList? then out[f.name].elems else [];
      assert cur + [elems[0]] + elems[1..] == cur + elems;
      assert elems[1..] == [] ==> cur + [elems[0]] == cur + elems;
    }
  }

  // ---------------------------------------------------------------- one message

  predicate FieldSized(v: Value)
  {
    match v
    case VList(elems) => forall i :: 0 <= i < |elems| ==> Sized(elems[i])
    case _ => Sized(v)
  }

  function CoerceField(f: Field, v: Value): Value
  {
    if f.repeated && v.VList? then VList(CoerceAll(f.typ, v.elems)) else Coerce(f.typ, v)
  }

  function FindName(fields: seq<Field>, name: string): Option<Field>
  {
    if fields == [] then None else if fields[0].name == name then Some(fields[0]) else FindName(fields[1..], name)
  }

  // The name is known and its value is not an empty list.
  predicate Sent(fields: seq<Field>, values: Message, name: string)
  {
    && name in values
    && FindName(fields, name).Some?
    && !(FindName(fields, name).value.repeated && values[name] == VList([]))
  }

  function Normal(fields: seq<Field>, values: Message): Message
  {
    map k | k in values && Sent(fields, values, k) :: CoerceField(FindName(fields, k).value, values[k])
  }

  lemma {:induction false} FindNameMember(fields: seq<Field>, name: string)
    ensures match FindName(fields, name)
      case Some(f) => f in fields && f.name == name
      case None => forall i :: 0 <= i < |fields| ==> fields[i].name != name
  {
    if fields != [] {
      FindNameMember(fields[1..], name);
    }
  }

  lemma FieldRoundTrip(fields: seq<Field>, out: Message, f: Field, values: Message)
    requires WellFormed(fields) && f in fields
    requires f.name in values ==> FieldSized(values[f.name])
    requires EncodeField(f, values).Some? && f.name !in out
    ensures DecodeFrom(fields, out, EncodeField(f, values).value)
            == Some(if f.name in values && !(f.repeated && values[f.name] == VList([]))
                    then out[f.name := CoerceField(f, values[f.name])] else out)
  {
    hide DecodeFrom, EncodeElems, Coerce;
    if f.name !in values {
      EmptyBody(fields, out);
    } else if f.repeated {
      var elems := values[f.name].elems;
      ElementsRoundTrip(fields, out, f, elems);
      PutAllRepeated(out, f, CoerceAll(f.typ, elems));
      assert [] + CoerceAll(f.typ, elems) == CoerceAll(f.typ, elems);
    } else {
      var v := values[f.name];
      SingularIsNoList(f, v);
      ElementsRoundTrip(fields, out, f, [v]);
      assert CoerceAll(f.typ, [v]) == [Coerce(f.typ, v)];
      PutAllOne(out, f, Coerce(f.typ, v));
    }
  }

  lemma SingularIsNoList(f: Field, v: Value)
    requires EncodeElems(f, [v]).Some?
    ensures !v.VList?
  {
  }

  lemma PutAllOne(out: Message, f: Field, v: Value)
    ensures PutAll(out, f, [v]) == Put(out, f, v)
  {
    assert [v][1..] == [];
    assert PutAll(Put(out, f, v), f, []) == Put(out, f, v);
  }

  lemma NormalHead(fields: seq<Field>, values: Message)
    requires fields != [] && WellFormed(fields)
    ensures var f := fields[0];
      var tail := Normal(fields[1..], values);
      && f.name !in tail
      && Normal(fields, values)
         == if f.name in values && !(f.repeated && values[f.name] == VList([]))
            then tail[f.name := CoerceField(f, values[f.name])] else tail
  {
    hide CoerceField;
    FindNameMember(fields[1..], fields[0].name);
  }

  lemma {:induction false} FieldsRoundTrip(all: seq<Field>, fields: seq<Field>, out: Message, values: Message)
    requires WellFormed(all) && WellFormed(fields) && SubSchema(fields, all)
    requires EncodeFields(fields, values).Some?
    requires forall k :: k in values ==> FieldSized(values[k])
    requires forall i :: 0 <= i < |fields| ==> fields[i].name !in out
    ensures DecodeFrom(all, out, EncodeFields(fields, values).value) == Some(out + Normal(fields, values))
    decreases |fields|
  {
    hide DecodeFrom, EncodeField, CoerceField, FieldSized, Normal;
    if fields == [] {
      EmptyBody(all, out);
      NormalOfNone(values);
      assert out + map[] == out;
    } else {
      var f, tail := fields[0], fields[1..];
      FieldRoundTrip(all, out, f, values);
      var head := EncodeField(f, values).value;
      var out' := DecodeFrom(all, out, head).value;
      DecodeConcat(all, out, head, EncodeFields(tail, values).value);
      FieldsRoundTrip(all, tail, out', values);
      NormalHead(fields, values);
      assert out + Normal(fields, values) == out' + Normal(tail, values);
    }
  }

  lemma NormalOfNone(values: Message)
    ensures Normal([], values) == map[]
  {
  }

  // The law: decoding undoes encoding, up to what the field types can carry.
  lemma RoundTrip(fields: seq<Field>, values: Message)
    requires WellFormed(fields) && EncodeFields(fields, values).Some?
    requires forall k :: k in values ==> FieldSized(values[k])
    ensures Decode(fields, EncodeFields(fields, values).value) == Some(Normal(fields, values))
  {
    hide DecodeFrom, EncodeFields, Normal, FieldSized;
    FieldsRoundTrip(fields, fields, map[], values);
    assert map[] + Normal(fields, values) == Normal(fields, values);
  }

  // A receiver with a smaller schema sees the fields it knows.
  lemma RoundTripToSubSchema(sub: seq<Field>, fields: seq<Field>, values: Message)
    requires WellFormed(fields) && WellFormed(sub) && SubSchema(sub, fields)
    requires EncodeFields(fields, values).Some?
    requires forall k :: k in values ==> FieldSized(values[k])
    ensures Decode(sub, EncodeFields(fields, values).value) == Some(Restrict(sub, Normal(fields, values)))
  {
    RoundTrip(fields, values);
    DecodeForgets(sub, fields, map[], EncodeFields(fields, values).value);
    assert Restrict(sub, map[]) == map[];
  }

  ghost predicate FieldInRange(f: Field, v: Value)
  {
    if f.repeated then v.VList? && v.elems != [] && forall i :: 0 <= i < |v.elems| ==> InRange(f.typ, v.elems[i])
    else InRange(f.typ, v)
  }

  lemma {:induction false} ElementsEncode(f: Field, elems: seq<Value>)
    requires WireType(f.typ).Some? && forall i :: 0 <= i < |elems| ==> InRange(f.typ, elems[i])
    ensures EncodeElems(f, elems).Some?
    decreases |elems|
  {
    if elems != [] {
      InRangeIsFixed(f.typ, elems[0]);
      ElementsEncode(f, elems[1..]);
    }
  }

  lemma {:induction false} FieldsEncode(fields: seq<Field>, values: Message)
    requires WellFormed(fields)
    requires forall i :: 0 <= i < |fields| && fields[i].name in values ==> FieldInRange(fields[i], values[fields[i].name])
    ensures EncodeFields(fields, values).Some?
    decreases |fields|
  {
    if fields != [] {
      var f := fields[0];
      if f.name in values {
        ElementsEncode(f, if f.repeated then values[f.name].elems else [values[f.name]]);
      }
      FieldsEncode(fields[1..], values);
    }
  }

  // In-range values under known names, with no empty lists, always encode and come back unchanged.
  lemma RoundTripExact(fields: seq<Field>, values: Message)
    requires WellFormed(fields)
    requires forall k :: k in values ==> FieldSized(values[k]) && FindName(fields, k).Some?
                                         && FieldInRange(FindName(fields, k).value, values[k])
    ensures EncodeFields(fields, values).Some?
    ensures Decode(fields, EncodeFields(fields, values).value) == Some(values)
  {
    hide Decode, EncodeFields, InRange, Coerce, FieldSized;
    forall i | 0 <= i < |fields| && fields[i].name in values
      ensures FieldInRange(fields[i], values[fields[i].name])
    {
      FindNameMember(fields, fields[i].name);
    }
    FieldsEncode(fields, values);
    RoundTrip(fields, values);
    forall k | k in values
      ensures CoerceField(FindName(fields, k).value, values[k]) == values[k]
    {
      FieldIsFixed(FindName(fields, k).value, values[k]);
    }
    assert Normal(fields, values) == values;
  }

  lemma FieldIsFixed(f: Field, v: Value)
    requires FieldInRange(f, v)
    ensures CoerceField(f, v) == v
  {
    if f.repeated {
      forall i | 0 <= i < |v.elems|
        ensures CoerceAll(f.typ, v.elems)[i] == v.elems[i]
      {
        InRangeIsFixed(f.typ, v.elems[i]);
      }
    } else {
      InRangeIsFixed(f.typ, v);
    }
  }
}
