/**
Laws of the protobuf codec: parsing undoes printing, parsing distributes over concatenation, and parsing
under a smaller schema is parsing and then forgetting.
*/
module ProtoLaws {
  import opened Options
  import opened Words
  import opened Schema
  import opened Proto
  import V = Varint

  // ---------------------------------------------------------------- reading ignores what follows

  lemma TakeBlobPrefix(a: seq<byte>, b: seq<byte>)
    requires TakeBlob(a).Some?
    ensures TakeBlob(a + b) == TakeBlob(a)
  {
    V.DecodePrefix(a, b, 0, 0);
    V.DecodeBounds(a, 0, 0);
  }

  lemma DecodeValuePrefix(a: seq<byte>, b: seq<byte>, typ: FieldType, wt: nat)
    requires DecodeValue(a, typ, wt).Some?
    ensures DecodeValue(a + b, typ, wt) == DecodeValue(a, typ, wt)
  {
    if wt == VARINT {
      V.DecodePrefix(a, b, 0, 0);
    } else if wt == LEN {
      TakeBlobPrefix(a, b);
      var (n, len) := TakeBlob(a).value;
      assert (a + b)[n..n + len] == a[n..n + len];
    }
  }

  lemma SkipFieldPrefix(a: seq<byte>, b: seq<byte>, wt: nat)
    requires SkipField(a, wt).Some?
    ensures SkipField(a + b, wt) == SkipField(a, wt)
  {
    if wt == VARINT {
      V.DecodePrefix(a, b, 0, 0);
    } else if wt == LEN {
      TakeBlobPrefix(a, b);
    }
  }

  // One turn of the parser: what is left of the body and of the result so far.
  datatype Turn = Turn(out: Message, rest: seq<byte>)

  function Step(fields: seq<Field>, out: Message, body: seq<byte>): (r: Option<Turn>)
    requires body != []
    ensures r.Some? ==> |r.value.rest| < |body|
  {
    match V.Decode(body)
    case None => None
    case Some(key) =>
      V.DecodeBounds(body, 0, 0);
      var tag, wt, rest := U32(key.val / 8), key.val % 8, body[key.n..];
      match FindTag(fields, tag)
      case None => (match SkipField(rest, wt) case None => None case Some(n) => Some(Turn(out, rest[n..])))
      case Some(f) =>
        match DecodeValue(rest, f.typ, wt)
        case None => None
        case Some(t) => Some(Turn(Put(out, f, t.value), rest[t.n..]))
  }

  lemma DecodeFromIsStep(fields: seq<Field>, out: Message, body: seq<byte>)
    requires body != []
    ensures DecodeFrom(fields, out, body)
            == match Step(fields, out, body) case None => None case Some(t) => DecodeFrom(fields, t.out, t.rest)
  {
    hide DecodeValue, SkipField, Put, FindTag, V.DecodeFrom;
  }

  lemma StepPrefix(fields: seq<Field>, out: Message, a: seq<byte>, b: seq<byte>)
    requires a != [] && Step(fields, out, a).Some?
    ensures Step(fields, out, a + b) == Some(Step(fields, out, a).value.(rest := Step(fields, out, a).value.rest + b))
  {
    hide DecodeValue, SkipField, Put, FindTag, V.DecodeFrom;
    V.DecodePrefix(a, b, 0, 0);
    V.DecodeBounds(a, 0, 0);
    var key := V.Decode(a).value;
    var tag, wt, rest := U32(key.val / 8), key.val % 8, a[key.n..];
    assert (a + b)[key.n..] == rest + b;
    match FindTag(fields, tag)
    case None =>
      SkipFieldPrefix(rest, b, wt);
      var n := SkipField(rest, wt).value;
      assert (rest + b)[n..] == rest[n..] + b;
    case Some(f) =>
      DecodeValuePrefix(rest, b, f.typ, wt);
      var n := DecodeValue(rest, f.typ, wt).value.n;
      assert (rest + b)[n..] == rest[n..] + b;
  }

  // If the first part parses, parsing goes on from its result, whatever the second part is.
  lemma {:induction false} DecodeConcat(fields: seq<Field>, out: Message, a: seq<byte>, b: seq<byte>)
    requires DecodeFrom(fields, out, a).Some?
    ensures DecodeFrom(fields, out, a + b) == DecodeFrom(fields, DecodeFrom(fields, out, a).value, b)
    decreases |a|
  {
    hide Step;
    if a == [] {
      assert a + b == b;
    } else {
      DecodeFromIsStep(fields, out, a);
      DecodeFromIsStep(fields, out, a + b);
      StepPrefix(fields, out, a, b);
      var t := Step(fields, out, a).value;
      DecodeConcat(fields, t.out, t.rest, b);
    }
  }

  // ---------------------------------------------------------------- merging

  // Repeated fields hold lists and the others do not.
  ghost predicate Shaped(fields: seq<Field>, m: Message)
  {
    forall i :: 0 <= i < |fields| && fields[i].name in m ==> m[fields[i].name].VList? == fields[i].repeated
  }

  function MergeValue(old_: Value, new_: Value): Value
  {
    if old_.VList? && new_.VList? then VList(old_.elems + new_.elems) else new_
  }

  // A later singular value wins; lists are joined.
  function Merge(m: Message, n: Message): Message
  {
    map k | k in m.Keys + n.Keys :: if k !in n then m[k] else if k !in m then n[k] else MergeValue(m[k], n[k])
  }

  lemma PutMerge(fields: seq<Field>, m: Message, n: Message, i: nat, v: Value)
    requires i < |fields| && Shaped(fields, m) && Shaped(fields, n) && !v.VList?
    ensures Put(Merge(m, n), fields[i], v) == Merge(m, Put(n, fields[i], v))
  {
    var f := fields[i];
    if f.repeated {
      var cm := if f.name in m then m[f.name].elems else [];
      var cn := if f.name in n then n[f.name].elems else [];
      assert cm + cn + [v] == cm + (cn + [v]);
    }
    var left, right := Put(Merge(m, n), f, v), Merge(m, Put(n, f, v));
    assert left.Keys == right.Keys;
    forall k | k in left
      ensures left[k] == right[k]
    {
    }
  }

  lemma PutShaped(fields: seq<Field>, m: Message, i: nat, v: Value)
    requires WellFormed(fields) && i < |fields| && Shaped(fields, m) && !v.VList?
    ensures Shaped(fields, Put(m, fields[i], v))
  {
    forall j | 0 <= j < |fields| && fields[j].name in Put(m, fields[i], v)
      ensures Put(m, fields[i], v)[fields[j].name].VList? == fields[j].repeated
    {
      if fields[j].name == fields[i].name {
        assert i == j;
      }
    }
  }

  lemma StepPuts(fields: seq<Field>, out: Message, body: seq<byte>) returns (i: nat, v: Value)
    requires body != [] && Step(fields, out, body).Some?
    ensures i <= |fields| && !v.VList?
    ensures forall any: Message ::
      Step(fields, any, body) ==
      Some(Turn(if i < |fields| then Put(any, fields[i], v) else any, Step(fields, out, body).value.rest))
  {
    hide SkipField, Put, V.DecodeFrom;
    var key := V.Decode(body).value;
    V.DecodeBounds(body, 0, 0);
    var tag, wt, rest := U32(key.val / 8), key.val % 8, body[key.n..];
    FindTagMember(fields, tag);
    if FindTag(fields, tag).None? {
      i, v := |fields|, VBool(false);
    } else {
      var f := FindTag(fields, tag).value;
      i :| 0 <= i < |fields| && fields[i] == f;
      v := DecodeValue(rest, f.typ, wt).value.value;
    }
  }

  lemma StepFails(fields: seq<Field>, out: Message, other: Message, body: seq<byte>)
    requires body != [] && Step(fields, out, body).None?
    ensures Step(fields, other, body).None?
  {
    hide DecodeValue, SkipField, Put, FindTag, V.DecodeFrom;
  }

  lemma {:induction false} DecodeOnto(fields: seq<Field>, m: Message, out: Message, body: seq<byte>)
    requires WellFormed(fields) && Shaped(fields, m) && Shaped(fields, out)
    ensures DecodeFrom(fields, Merge(m, out), body)
            == match DecodeFrom(fields, out, body) case None => None case Some(n) => Some(Merge(m, n))
    decreases |body|
  {
    hide Step, Merge, Put;
    if body != [] {
      DecodeFromIsStep(fields, out, body);
      DecodeFromIsStep(fields, Merge(m, out), body);
      if Step(fields, out, body).Some? {
        var i, v := StepPuts(fields, out, body);
        var t := Step(fields, out, body).value;
        if i < |fields| {
          PutMerge(fields, m, out, i, v);
          PutShaped(fields, out, i, v);
        }
        DecodeOnto(fields, m, t.out, t.rest);
      } else {
        StepFails(fields, out, Merge(m, out), body);
      }
    }
  }

  lemma {:induction false} DecodeShaped(fields: seq<Field>, out: Message, body: seq<byte>)
    requires WellFormed(fields) && Shaped(fields, out) && DecodeFrom(fields, out, body).Some?
    ensures Shaped(fields, DecodeFrom(fields, out, body).value)
    decreases |body|
  {
    hide Step, Put;
    if body != [] {
      DecodeFromIsStep(fields, out, body);
      var i, v := StepPuts(fields, out, body);
      if i < |fields| {
        PutShaped(fields, out, i, v);
      }
      var t := Step(fields, out, body).value;
      DecodeShaped(fields, t.out, t.rest);
    }
  }

  function Decode(fields: seq<Field>, body: seq<byte>): Option<Message>
  {
    DecodeFrom(fields, map[], body)
  }

  // Two bodies one after the other parse to the merge of what they parse to.
  lemma DecodeMerges(fields: seq<Field>, a: seq<byte>, b: seq<byte>)
    requires WellFormed(fields) && Decode(fields, a).Some?
    ensures Decode(fields, a + b)
            == match Decode(fields, b) case None => None case Some(n) => Some(Merge(Decode(fields, a).value, n))
  {
    hide DecodeFrom;
    var m := Decode(fields, a).value;
    DecodeConcat(fields, map[], a, b);
    DecodeShaped(fields, map[], a);
    DecodeOnto(fields, m, map[], b);
    assert Merge(m, map[]) == m;
  }

  // ---------------------------------------------------------------- forgetting fields

  ghost predicate SubSchema(sub: seq<Field>, full: seq<Field>)
  {
    forall i :: 0 <= i < |sub| ==> sub[i] in full
  }

  ghost predicate Knows(fields: seq<Field>, name: string)
  {
    exists i :: 0 <= i < |fields| && fields[i].name == name
  }

  ghost function Restrict(fields: seq<Field>, m: Message): Message
  {
    map k | k in m && Knows(fields, k) :: m[k]
  }

  // An unknown field is skipped by exactly the bytes a known one would have taken.
  lemma SkipsWhatItWouldTake(data: seq<byte>, typ: FieldType, wt: nat)
    requires DecodeValue(data, typ, wt).Some?
    ensures SkipField(data, wt) == Some(DecodeValue(data, typ, wt).value.n)
  {
  }

  lemma FindInSub(sub: seq<Field>, full: seq<Field>, tag: u32)
    requires WellFormed(full) && WellFormed(sub) && SubSchema(sub, full)
    ensures FindTag(sub, tag).Some? ==> FindTag(full, tag) == FindTag(sub, tag)
    ensures FindTag(full, tag).Some? && FindTag(sub, tag).None? ==> !Knows(sub, FindTag(full, tag).value.name)
  {
    FindTagMember(sub, tag);
    FindTagMember(full, tag);
    if FindTag(sub, tag).Some? {
      var f := FindTag(sub, tag).value;
      var i :| 0 <= i < |full| && full[i] == f;
      FindTagIndexed(full, i);
    } else if FindTag(full, tag).Some? {
      var f := FindTag(full, tag).value;
      var i :| 0 <= i < |full| && full[i] == f;
      forall j | 0 <= j < |sub|
        ensures sub[j].name != f.name
      {
        var k :| 0 <= k < |full| && full[k] == sub[j];
        assert k != i;
      }
    }
  }

  lemma PutRestrict(fields: seq<Field>, m: Message, f: Field, v: Value)
    ensures Restrict(fields, Put(m, f, v)) == if Knows(fields, f.name) then Put(Restrict(fields, m), f, v) else Restrict(fields, m)
  {
  }

  lemma StepRestrict(sub: seq<Field>, full: seq<Field>, out: Message, body: seq<byte>)
    requires WellFormed(full) && WellFormed(sub) && SubSchema(sub, full)
    requires body != [] && Step(full, out, body).Some?
    ensures var t := Step(full, out, body).value;
      Step(sub, Restrict(sub, out), body) == Some(Turn(Restrict(sub, t.out), t.rest))
  {
    hide DecodeValue, SkipField, Put, FindTag, V.DecodeFrom, Restrict;
    var key := V.Decode(body).value;
    V.DecodeBounds(body, 0, 0);
    var tag, wt, rest := U32(key.val / 8), key.val % 8, body[key.n..];
    FindInSub(sub, full, tag);
    FindTagMember(sub, tag);
    match FindTag(full, tag)
    case None =>
    case Some(f) =>
      var t := DecodeValue(rest, f.typ, wt).value;
      PutRestrict(sub, out, f, t.value);
      if FindTag(sub, tag).None? {
        SkipsWhatItWouldTake(rest, f.typ, wt);
      } else {
        var i :| 0 <= i < |sub| && sub[i] == f;
        assert Knows(sub, f.name);
      }
  }

  // On any bytes the full schema parses, a smaller schema parses to the restriction.
  lemma {:induction false} DecodeForgets(sub: seq<Field>, full: seq<Field>, out: Message, body: seq<byte>)
    requires WellFormed(full) && WellFormed(sub) && SubSchema(sub, full)
    requires DecodeFrom(full, out, body).Some?
    ensures DecodeFrom(sub, Restrict(sub, out), body) == Some(Restrict(sub, DecodeFrom(full, out, body).value))
    decreases |body|
  {
    hide Step, Restrict;
    if body != [] {
      DecodeFromIsStep(full, out, body);
      DecodeFromIsStep(sub, Restrict(sub, out), body);
      StepRestrict(sub, full, out, body);
      var t := Step(full, out, body).value;
      DecodeForgets(sub, full, t.out, t.rest);
    }
  }
}
