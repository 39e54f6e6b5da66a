/**
Message schemas: validation and the lookup tables built beside it, in the Go and the Python form.
*/
module Schema {
  import opened Words
  import opened Options

  // Unknown stands for every string but the ten names.
  datatype FieldType =
    | Bool | Int32 | Int64 | Uint32 | Uint64 | Sint32 | Sint64 | Float | String | Bytes
    | Unknown(name: string)

  datatype Field = Field(name: string, typ: FieldType, tag: u32, repeated: bool)

  // fields[byTag[t]] is the field with tag t; byName likewise.
  datatype Schema = Schema(id: string, fields: seq<Field>, byTag: map<u32, nat>, byName: map<string, nat>)

  predicate ValidTag(tag: int)
  {
    1 <= tag <= 536870911 && !(19000 <= tag <= 19999)
  }

  // The tags whose keys fit in 32 bits, but for the reserved block of a thousand.
  lemma ValidTagIff(tag: int)
    ensures ValidTag(tag) <==> tag > 0 && 8 * tag + 7 < 0x1_0000_0000 && tag / 1000 != 19
  {
  }

  ghost predicate WellFormed(fields: seq<Field>)
  {
    && (forall i :: 0 <= i < |fields| ==> ValidTag(fields[i].tag) && !fields[i].typ.Unknown?)
    && (forall i, j :: 0 <= i < j < |fields| ==> fields[i].tag != fields[j].tag && fields[i].name != fields[j].name)
  }

  ghost predicate Indexes(s: Schema, n: nat)
    requires n <= |s.fields|
  {
    && (forall i :: 0 <= i < n ==> s.fields[i].tag in s.byTag && s.byTag[s.fields[i].tag] == i)
    && (forall t :: t in s.byTag ==> s.byTag[t] < n && s.fields[s.byTag[t]].tag == t)
    && (forall i :: 0 <= i < n ==> s.fields[i].name in s.byName && s.byName[s.fields[i].name] == i)
    && (forall t :: t in s.byName ==> s.byName[t] < n && s.fields[s.byName[t]].name == t)
  }

  // A schema as NewSchema returns it.
  ghost predicate Valid(s: Schema)
  {
    s.fields != [] && WellFormed(s.fields) && Indexes(s, |s.fields|)
  }

  lemma ExtendWellFormed(s: Schema, f: Field, n: nat)
    requires n < |s.fields| && s.fields[n] == f
    requires WellFormed(s.fields[..n]) && Indexes(s, n)
    ensures WellFormed(s.fields[..n + 1]) <==>
            ValidTag(f.tag) && !f.typ.Unknown? && f.tag !in s.byTag && f.name !in s.byName
  {
    var a, b := s.fields[..n], s.fields[..n + 1];
    assert b[n] == f && forall i :: 0 <= i < n ==> b[i] == s.fields[i] == a[i];
    if f.tag in s.byTag {
      assert b[s.byTag[f.tag]].tag == b[n].tag;
    }
    if f.name in s.byName {
      assert b[s.byName[f.name]].name == b[n].name;
    }
  }

  lemma PrefixMalformed(fields: seq<Field>, n: nat)
    requires n <= |fields| && !WellFormed(fields[..n])
    ensures !WellFormed(fields)
  {
    if WellFormed(fields) {
      var a := fields[..n];
      assert forall i :: 0 <= i < n ==> a[i] == fields[i];
    }
  }

  // NewSchema (Go): rejects exactly the malformed schemas, and indexes the others.
  method NewSchema(id: string, fields: seq<Field>) returns (r: Option<Schema>)
    ensures r.Some? <==> id != "" && fields != [] && WellFormed(fields)
    ensures r.Some? ==> r.value.id == id && r.value.fields == fields && Valid(r.value)
  {
    if id == "" {
      return None;
    }
    if fields == [] {
      return None;
    }
    var s := Schema(id, fields, map[], map[]);
    for i := 0 to |fields|
      invariant s.id == id && s.fields == fields
      invariant WellFormed(fields[..i]) && Indexes(s, i)
    {
      var f := fields[i];
      ExtendWellFormed(s, f, i);
      if f.tag < 1 || f.tag > 536870911 || (f.tag >= 19000 && f.tag <= 19999)
         || f.tag in s.byTag || f.name in s.byName || f.typ.Unknown? {
        PrefixMalformed(fields, i + 1);
        return None;
      }
      s := s.(byTag := s.byTag[f.tag := i], byName := s.byName[f.name := i]);
    }
    assert fields[..|fields|] == fields;
    return Some(s);
  }

  // ---------------------------------------------------------------- Python

  // A Python field's tag may be any integer.
  datatype PyField = PyField(name: string, typ: FieldType, tag: int, repeated: bool)

  ghost predicate PyWellFormed(fields: seq<PyField>)
  {
    && (forall i :: 0 <= i < |fields| ==> ValidTag(fields[i].tag) && !fields[i].typ.Unknown?)
    && (forall i, j :: 0 <= i < j < |fields| ==> fields[i].tag != fields[j].tag && fields[i].name != fields[j].name)
  }

  predicate Fits(fields: seq<PyField>)
  {
    forall i :: 0 <= i < |fields| ==> 0 <= fields[i].tag < 0x1_0000_0000
  }

  function Narrowed(fields: seq<PyField>): (r: seq<Field>)
    requires Fits(fields)
    ensures |r| == |fields|
  {
    seq(|fields|, i requires 0 <= i < |fields| => Field(fields[i].name, fields[i].typ, fields[i].tag, fields[i].repeated))
  }

  // Well-formedness is that of the other implementations, for tags they can hold.
  lemma NarrowedWellFormed(fields: seq<PyField>)
    ensures PyWellFormed(fields) <==> Fits(fields) && WellFormed(Narrowed(fields))
  {
    if Fits(fields) && WellFormed(Narrowed(fields)) {
      var r := Narrowed(fields);
      forall i | 0 <= i < |fields|
        ensures ValidTag(fields[i].tag) && !fields[i].typ.Unknown?
      {
        assert ValidTag(r[i].tag) && !r[i].typ.Unknown?;
      }
      forall i, j | 0 <= i < j < |fields|
        ensures fields[i].tag != fields[j].tag && fields[i].name != fields[j].name
      {
        assert r[i].tag != r[j].tag && r[i].name != r[j].name;
      }
    }
  }

  lemma PyPrefixMalformed(fields: seq<PyField>, n: nat)
    requires n <= |fields| && !PyWellFormed(fields[..n])
    ensures !PyWellFormed(fields)
  {
    if PyWellFormed(fields) {
      var a := fields[..n];
      assert forall i :: 0 <= i < n ==> a[i] == fields[i];
    }
  }

  // validate: the same verdict from two sets, whatever the tags.
  method Validate(id: string, fields: seq<PyField>) returns (ok: bool)
    ensures ok <==> id != "" && fields != [] && Fits(fields) && WellFormed(Narrowed(fields))
  {
    hide WellFormed;
    NarrowedWellFormed(fields);
    if id == "" || fields == [] {
      return false;
    }
    var seenTags: set<int>, seenNames: set<string> := {}, {};
    for i := 0 to |fields|
      invariant seenTags == set k | 0 <= k < i :: fields[k].tag
      invariant seenNames == set k | 0 <= k < i :: fields[k].name
      invariant PyWellFormed(fields[..i])
    {
      var f := fields[i];
      ghost var prefix := fields[..i + 1];
      assert prefix[i] == f && forall k :: 0 <= k < i ==> prefix[k] == fields[k] == fields[..i][k];
      if !(1 <= f.tag <= 536870911) || 19000 <= f.tag <= 19999 || f.tag in seenTags || f.name in seenNames
         || f.typ.Unknown? {
        PyPrefixMalformed(fields, i + 1);
        return false;
      }
      seenTags := seenTags + {f.tag};
      seenNames := seenNames + {f.name};
    }
    assert fields[..|fields|] == fields;
    return true;
  }
}
