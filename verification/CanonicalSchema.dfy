/**
The canonical schema string, whose checksum is a message's schema id: one line per field, sorted as
strings, joined by newlines.

It does not depend on the order of the fields, and determines them up to that order. The documentation
says the lines are sorted by tag; they are sorted as strings, and the two orders differ exactly as stated
at the end.
*/
module CanonicalSchema {
  import opened Bits
  import opened Words
  import opened Schema
  import TopicHash

  function Digit(d: nat): char
    requires d < 10
  {
    '0' + d as char
  }

  function Decimal(n: nat): (s: string)
    ensures s != []
  {
    if n < 10 then [Digit(n)] else Decimal(n / 10) + [Digit(n % 10)]
  }

  function TypeName(t: FieldType): string
  {
    match t
    case Bool => "bool"
    case Int32 => "int32"
    case Int64 => "int64"
    case Uint32 => "uint32"
    case Uint64 => "uint64"
    case Sint32 => "sint32"
    case Sint64 => "sint64"
    case Float => "float"
    case String => "string"
    case Bytes => "bytes"
    case Unknown(name) => name
  }

  function TypeString(f: Field): string
  {
    if f.repeated then "repeated " + TypeName(f.typ) else TypeName(f.typ)
  }

  function Rest(f: Field): string
  {
    TypeString(f) + ":" + f.name
  }

  function Line(f: Field): (line: string)
    ensures line != []
  {
    Decimal(f.tag) + ":" + Rest(f)
  }

  function Lines(fields: seq<Field>): (lines: seq<string>)
    ensures |lines| == |fields|
  {
    seq(|fields|, i requires 0 <= i < |fields| => Line(fields[i]))
  }

  // ---------------------------------------------------------------- sorting strings

  // Strict lexicographic order.
  predicate Less(a: string, b: string)
  {
    b != [] && (a == [] || a[0] < b[0] || (a[0] == b[0] && Less(a[1..], b[1..])))
  }

  function Insert(t: seq<string>, x: string): (r: seq<string>)
    ensures |r| == |t| + 1
  {
    if t == [] || !Less(x, t[|t| - 1]) then t + [x]
    else Insert(t[..|t| - 1], x) + [t[|t| - 1]]
  }

  function Sort(s: seq<string>): (t: seq<string>)
    ensures |t| == |s|
  {
    if s == [] then [] else Insert(Sort(s[..|s| - 1]), s[|s| - 1])
  }

  ghost predicate Ascending(t: seq<string>)
  {
    forall i, j :: 0 <= i < j < |t| ==> !Less(t[j], t[i])
  }

  lemma {:induction false} LessTotal(a: string, b: string)
    ensures Less(a, b) || a == b || Less(b, a)
    ensures !(Less(a, b) && Less(b, a)) && !Less(a, a)
    decreases |a|
  {
    if a != [] {
      LessTotal(a[1..], if b == [] then [] else b[1..]);
      LessTotal(a[1..], a[1..]);
      if b != [] && a[0] == b[0] && a[1..] == b[1..] {
        assert a == [a[0]] + a[1..] && b == [b[0]] + b[1..];
      }
    }
  }

  lemma {:induction false} LessTransitive(a: string, b: string, c: string)
    ensures !Less(b, a) && !Less(c, b) ==> !Less(c, a)
    decreases |a|
  {
    if a != [] && b != [] && c != [] {
      LessTransitive(a[1..], b[1..], c[1..]);
    }
  }

  lemma {:induction false} InsertSorts(t: seq<string>, x: string)
    requires Ascending(t)
    ensures Ascending(Insert(t, x)) && multiset(Insert(t, x)) == multiset(t) + multiset{x}
    decreases |t|
  {
    hide Less;
    if t == [] {
    } else {
      var n := |t| - 1;
      var last := t[n];
      assert t == t[..n] + [last];
      if !Less(x, last) {
        forall i | 0 <= i < |t|
          ensures !Less(x, t[i])
        {
          LessTransitive(t[i], last, x);
        }
      } else {
        InsertSorts(t[..n], x);
        var r := Insert(t[..n], x);
        LessTotal(x, last);
        forall y | y in r
          ensures !Less(last, y)
        {
          assert y in multiset(r);
        }
      }
    }
  }

  lemma {:induction false} SortSorts(s: seq<string>)
    ensures Ascending(Sort(s)) && multiset(Sort(s)) == multiset(s)
    decreases |s|
  {
    hide Less, Insert;
    if s != [] {
      var n := |s| - 1;
      SortSorts(s[..n]);
      InsertSorts(Sort(s[..n]), s[n]);
      assert s == s[..n] + [s[n]];
    }
  }

  // There is only one ascending arrangement.
  lemma {:induction false} AscendingUnique(s: seq<string>, t: seq<string>)
    requires Ascending(s) && Ascending(t) && multiset(s) == multiset(t)
    ensures s == t
    decreases |s|
  {
    hide Less;
    assert |s| == |multiset(s)| == |t|;
    if s != [] {
      FirstIsLeast(s, t);
      FirstIsLeast(t, s);
      LessTotal(s[0], t[0]);
      DropFirst(s);
      DropFirst(t);
      AscendingUnique(s[1..], t[1..]);
    }
  }

  lemma DropFirst(s: seq<string>)
    requires Ascending(s) && s != []
    ensures s == [s[0]] + s[1..] && multiset(s[1..]) == multiset(s) - multiset{s[0]} && Ascending(s[1..])
  {
    hide Less;
    assert s == [s[0]] + s[1..];
  }

  lemma FirstIsLeast(s: seq<string>, t: seq<string>)
    requires Ascending(s) && multiset(s) == multiset(t) && s != [] && t != []
    ensures !Less(t[0], s[0])
  {
    assert t[0] in multiset(t);
    assert t[0] in s;
    LessTotal(s[0], s[0]);
  }

  // ---------------------------------------------------------------- the canonical string

  function Join(lines: seq<string>): string
  {
    if lines == [] then "" else if |lines| == 1 then lines[0] else lines[0] + "\n" + Join(lines[1..])
  }

  // canonical_schema_string
  function Canonical(fields: seq<Field>): string
  {
    Join(Sort(Lines(fields)))
  }

  // schema_id; the text encoding is a parameter.
  function SchemaId(fields: seq<Field>, utf8: string -> seq<byte>): u16
  {
    TopicHash.Crc32(utf8(Canonical(fields))) % 0x1_0000
  }

  type u16 = x: int | 0 <= x < 0x1_0000

  // A stand-in for the library's in-place string sort.
  method SortStrings(a: array<string>)
    modifies a
    ensures a[..] == Sort(old(a[..]))
  {
    hide Less;
    ghost var s := a[..];
    for i := 0 to a.Length
      modifies a
      invariant a[..i] == Sort(s[..i]) && a[i..] == s[i..]
    {
      assert s[..i + 1][..i] == s[..i] && a[i] == s[i];
      InsertLast(a, i);
      assert s[i..][1..] == s[i + 1..];
    }
    assert a[..] == a[..a.Length] && s[..a.Length] == s;
  }

  lemma InsertBefore(t: seq<string>, x: string)
    requires t != [] && Less(x, t[|t| - 1])
    ensures Insert(t, x) == Insert(t[..|t| - 1], x) + [t[|t| - 1]]
  {
    hide Less;
  }

  lemma InsertAtEnd(t: seq<string>, x: string)
    requires t == [] || !Less(x, t[|t| - 1])
    ensures Insert(t, x) == t + [x]
  {
    hide Less;
  }

  method InsertLast(a: array<string>, i: nat)
    requires i < a.Length
    modifies a
    ensures a[..i + 1] == Insert(old(a[..i]), old(a[i])) && a[i + 1..] == old(a[i + 1..])
  {
    hide Less, Insert;
    ghost var s := a[..];
    var x := a[i];
    var j: nat := i;
    while j > 0 && Less(x, a[j - 1])
      modifies a
      invariant j <= i && a[..j] == s[..j] && a[i + 1..] == s[i + 1..]
      invariant Insert(s[..j], x) + a[j + 1..i + 1] == Insert(s[..i], x)
    {
      assert s[..j][..j - 1] == s[..j - 1] && a[j - 1] == s[j - 1];
      InsertBefore(s[..j], x);
      ghost var tail := a[j + 1..i + 1];
      a[j] := a[j - 1];
      j := j - 1;
      assert a[j + 1..i + 1] == [s[j]] + tail;
      assert (Insert(s[..j], x) + [s[j]]) + tail == Insert(s[..j], x) + ([s[j]] + tail);
    }
    InsertAtEnd(s[..j], x);
    a[j] := x;
    assert a[..i + 1] == s[..j] + [x] + a[j + 1..i + 1];
  }

  // canonicalSchemaString (Go): fill a slice, sort it in place, join it.
  method CanonicalSchemaString(fields: seq<Field>) returns (s: string)
    ensures s == Canonical(fields)
  {
    hide Line, Sort, Join;
    var lines := new string[|fields|](_ => "");
    for i := 0 to |fields|
      modifies lines
      invariant lines[..i] == Lines(fields)[..i]
    {
      lines[i] := Line(fields[i]);
      assert lines[..i + 1] == lines[..i] + [lines[i]];
    }
    assert lines[..] == Lines(fields);
    SortStrings(lines);
    s := Join(lines[..]);
  }

  // ---------------------------------------------------------------- invariance

  lemma LinesConcat(f: seq<Field>, g: seq<Field>)
    ensures Lines(f + g) == Lines(f) + Lines(g)
  {
    hide Line;
  }

  lemma RemoveOne(f: seq<Field>, e: Field) returns (rest: seq<Field>)
    requires e in f
    ensures |rest| < |f| && multiset(rest) == multiset(f) - multiset{e}
    ensures multiset(Lines(rest)) == multiset(Lines(f)) - multiset{Line(e)}
    ensures Line(e) in multiset(Lines(f))
  {
    hide Line;
    var k :| 0 <= k < |f| && f[k] == e;
    var a, b := f[..k], f[k + 1..];
    rest := a + b;
    assert f == a + [f[k]] + b;
    LinesConcat(a, b);
    LinesConcat(a + [f[k]], b);
    LinesConcat(a, [f[k]]);
    assert Lines([f[k]]) == [Line(f[k])];
    assert Lines(f) == Lines(a) + [Line(f[k])] + Lines(b);
  }

  lemma PutBack(a: multiset<string>, b: multiset<string>, e: string)
    requires e in a && e in b && a - multiset{e} == b - multiset{e}
    ensures a == b
  {
    assert a == a - multiset{e} + multiset{e} && b == b - multiset{e} + multiset{e};
  }

  lemma {:induction false} LinesPermuted(f: seq<Field>, g: seq<Field>)
    requires multiset(f) == multiset(g)
    ensures multiset(Lines(f)) == multiset(Lines(g))
    decreases |f|
  {
    hide Line, Lines;
    assert |f| == |multiset(f)| == |g|;
    if f == [] {
      assert g == [];
    } else {
      assert f[0] in multiset(g);
      var a := RemoveOne(f, f[0]);
      var b := RemoveOne(g, f[0]);
      LinesPermuted(a, b);
      PutBack(multiset(Lines(f)), multiset(Lines(g)), Line(f[0]));
    }
  }

  // Declaring the same fields in another order gives the same canonical string and the same id.
  lemma OrderDoesNotMatter(f: seq<Field>, g: seq<Field>, utf8: string -> seq<byte>)
    requires multiset(f) == multiset(g)
    ensures Canonical(f) == Canonical(g) && SchemaId(f, utf8) == SchemaId(g, utf8)
  {
    hide Sort, Lines, Ascending, TopicHash.Crc32;
    LinesPermuted(f, g);
    SortSorts(Lines(f));
    SortSorts(Lines(g));
    AscendingUnique(Sort(Lines(f)), Sort(Lines(g)));
  }

  // ---------------------------------------------------------------- injectivity

  // What precedes the first separator, and what follows it, can be read back.
  lemma {:induction false} SplitAtSeparator(c: char, a: string, x: string, b: string, y: string)
    requires c !in a && c !in b && a + [c] + x == b + [c] + y
    ensures a == b && x == y
    decreases |a|
  {
    var s := a + [c] + x;
    if a == [] {
      assert s[0] == c;
      assert b == [];
      assert s[1..] == x && (b + [c] + y)[1..] == y;
    } else {
      assert s[0] == a[0];
      assert b != [];
      assert s[1..] == a[1..] + [c] + x && (b + [c] + y)[1..] == b[1..] + [c] + y;
      SplitAtSeparator(c, a[1..], x, b[1..], y);
      assert a == [a[0]] + a[1..] && b == [b[0]] + b[1..];
    }
  }

  lemma {:induction false} DecimalDigits(n: nat)
    ensures forall c :: c in Decimal(n) ==> '0' <= c <= '9'
  {
    if n >= 10 {
      DecimalDigits(n / 10);
    }
  }

  lemma {:induction false} DecimalInjective(m: nat, n: nat)
    ensures Decimal(m) == Decimal(n) ==> m == n
  {
    if Decimal(m) == Decimal(n) {
      var s, t := Decimal(m), Decimal(n);
      assert s[|s| - 1] == Digit(m % 10) && t[|t| - 1] == Digit(n % 10);
      if m >= 10 && n >= 10 {
        assert s[..|s| - 1] == Decimal(m / 10) && t[..|t| - 1] == Decimal(n / 10);
        DecimalInjective(m / 10, n / 10);
      }
    }
  }

  lemma TypeStringPlain(f: Field)
    requires !f.typ.Unknown?
    ensures ':' !in TypeString(f) && '\n' !in TypeString(f)
  {
    assert ':' !in TypeName(f.typ) && '\n' !in TypeName(f.typ);
  }

  lemma TypeNameInjective(t: FieldType, u: FieldType)
    requires !t.Unknown? && !u.Unknown? && TypeName(t) == TypeName(u)
    ensures t == u
  {
    var n := TypeName(t);
    assert |n| >= 4 && TypeName(u)[0] == n[0] && TypeName(u)[|n| - 1] == n[|n| - 1];
  }

  lemma TypeStringInjective(f: Field, g: Field)
    requires !f.typ.Unknown? && !g.typ.Unknown? && TypeString(f) == TypeString(g)
    ensures f.typ == g.typ && f.repeated == g.repeated
  {
    assert TypeName(f.typ)[0] != 'r' && TypeName(g.typ)[0] != 'r';
    assert f.repeated <==> TypeString(f)[0] == 'r';
    assert g.repeated <==> TypeString(g)[0] == 'r';
    if f.repeated {
      assert TypeString(f)[9..] == TypeName(f.typ) && TypeString(g)[9..] == TypeName(g.typ);
    }
    TypeNameInjective(f.typ, g.typ);
  }

  // The tag can be read back from any line.
  lemma LineShowsTag(f: Field, g: Field)
    ensures Line(f) == Line(g) ==> f.tag == g.tag && Rest(f) == Rest(g)
  {
    hide Decimal, Rest;
    if Line(f) == Line(g) {
      DecimalDigits(f.tag);
      DecimalDigits(g.tag);
      SplitAtSeparator(':', Decimal(f.tag), Rest(f), Decimal(g.tag), Rest(g));
      DecimalInjective(f.tag, g.tag);
    }
  }

  // Type, repeated flag and name can be read back, too, whatever the name contains.
  lemma LineInjective(f: Field, g: Field)
    requires !f.typ.Unknown? && !g.typ.Unknown?
    ensures Line(f) == Line(g) <==> f == g
  {
    hide Line, TypeString;
    if Line(f) == Line(g) {
      LineShowsTag(f, g);
      TypeStringPlain(f);
      TypeStringPlain(g);
      SplitAtSeparator(':', TypeString(f), f.name, TypeString(g), g.name);
      TypeStringInjective(f, g);
    }
  }

  predicate OneLine(s: string)
  {
    s != [] && '\n' !in s
  }

  lemma {:induction false} JoinInjective(s: seq<string>, t: seq<string>)
    requires forall l :: l in s ==> OneLine(l)
    requires forall l :: l in t ==> OneLine(l)
    requires Join(s) == Join(t)
    ensures s == t
    decreases |s|
  {
    if |s| >= 2 && |t| >= 2 {
      assert OneLine(s[0]) && OneLine(t[0]);
      SplitAtSeparator('\n', s[0], Join(s[1..]), t[0], Join(t[1..]));
      JoinInjective(s[1..], t[1..]);
      assert s == [s[0]] + s[1..] && t == [t[0]] + t[1..];
    } else {
      JoinShort(s);
      JoinShort(t);
    }
  }

  // A newline shows that there are two lines; without it there is at most the one.
  lemma JoinShort(s: seq<string>)
    requires forall l :: l in s ==> OneLine(l)
    ensures '\n' in Join(s) <==> |s| >= 2
    ensures |s| < 2 ==> s == if Join(s) == "" then [] else [Join(s)]
  {
    if |s| >= 2 {
      assert Join(s)[|s[0]|] == '\n';
    } else if |s| == 1 {
      assert OneLine(s[0]);
    }
  }

  // Fields the canonical string can tell apart: known types, names on one line.
  predicate Printable(f: Field)
  {
    !f.typ.Unknown? && '\n' !in f.name
  }

  lemma LineOnOneLine(f: Field)
    requires Printable(f)
    ensures OneLine(Line(f))
  {
    hide Decimal, TypeString;
    DecimalDigits(f.tag);
    TypeStringPlain(f);
  }

  lemma {:induction false} CountLines(f: seq<Field>, x: Field)
    requires !x.typ.Unknown? && forall i :: 0 <= i < |f| ==> !f[i].typ.Unknown?
    ensures multiset(Lines(f))[Line(x)] == multiset(f)[x]
    decreases |f|
  {
    hide Line;
    if f != [] {
      CountLines(f[1..], x);
      LineInjective(f[0], x);
      assert f == [f[0]] + f[1..];
      assert Lines(f) == [Line(f[0])] + Lines(f[1..]);
    }
  }

  // The canonical string determines the fields up to their order, and nothing more.
  lemma CanonicalIffPermuted(f: seq<Field>, g: seq<Field>)
    requires forall x :: x in f || x in g ==> Printable(x)
    ensures Canonical(f) == Canonical(g) <==> multiset(f) == multiset(g)
  {
    hide Sort, Line, Join;
    if multiset(f) == multiset(g) {
      OrderDoesNotMatter(f, g, s => []);
    } else if Canonical(f) == Canonical(g) {
      SortSorts(Lines(f));
      SortSorts(Lines(g));
      SortedOnOneLine(f);
      SortedOnOneLine(g);
      JoinInjective(Sort(Lines(f)), Sort(Lines(g)));
      forall x
        ensures multiset(f)[x] == multiset(g)[x]
      {
        if x in f || x in g {
          assert forall i :: 0 <= i < |f| ==> f[i] in f;
          assert forall i :: 0 <= i < |g| ==> g[i] in g;
          CountLines(f, x);
          CountLines(g, x);
        }
      }
    }
  }

  lemma SortedOnOneLine(f: seq<Field>)
    requires forall x :: x in f ==> Printable(x)
    ensures forall l :: l in Sort(Lines(f)) ==> OneLine(l)
  {
    hide Sort, Line, Ascending, OneLine;
    SortSorts(Lines(f));
    forall l | l in Sort(Lines(f))
      ensures OneLine(l)
    {
      assert l in multiset(Lines(f));
      var i :| 0 <= i < |f| && Lines(f)[i] == l;
      LineOnOneLine(f[i]);
    }
  }

  // A newline in a name can make two different schemas print alike.
  lemma NewlineCollides()
    ensures var f := [Field("a\n2:bool:b", Bool, 1, false)];
      var g := [Field("a", Bool, 1, false), Field("b", Bool, 2, false)];
      WellFormed(f) && WellFormed(g) && f != g && Canonical(f) == Canonical(g)
  {
    hide Line, Sort, Less;
    var f := Field("a\n2:bool:b", Bool, 1, false);
    var x, y := Field("a", Bool, 1, false), Field("b", Bool, 2, false);
    BoolLine("a\n2:bool:b", 1);
    BoolLine("a", 1);
    BoolLine("b", 2);
    assert Lines([f]) == [Line(f)] && Lines([x, y]) == [Line(x), Line(y)];
    FirstCharacter(Line(x), Line(y));
    SortedAlready([Line(f)]);
    SortedAlready([Line(x), Line(y)]);
    assert [Line(x), Line(y)][1..] == [Line(y)];
    assert "1:bool:a" + "\n" + "2:bool:b" == "1:bool:a\n2:bool:b";
  }

  lemma BoolLine(name: string, tag: u32)
    requires tag < 10
    ensures Line(Field(name, Bool, tag, false)) == [Digit(tag)] + ":bool:" + name
  {
  }

  // The schema string of a climate sensor, in full.
  lemma ClimateSchema()
    ensures WellFormed([TEMPERATURE, HUMIDITY, ROOM_ID])
    ensures Canonical([TEMPERATURE, HUMIDITY, ROOM_ID])
            == "1:float:temperature" + "\n" + "2:float:humidity" + "\n" + "3:string:room_id"
  {
    hide Line, Sort, Less, Join, Ascending;
    TemperatureLine();
    HumidityLine();
    RoomIdLine();
    assert Lines([TEMPERATURE, HUMIDITY, ROOM_ID]) == [Line(TEMPERATURE), Line(HUMIDITY), Line(ROOM_ID)];
    ThreeAscend(Line(TEMPERATURE), Line(HUMIDITY), Line(ROOM_ID));
    SortedAlready([Line(TEMPERATURE), Line(HUMIDITY), Line(ROOM_ID)]);
    ThreeLines(Line(TEMPERATURE), Line(HUMIDITY), Line(ROOM_ID));
  }

  const TEMPERATURE: Field := Field("temperature", Float, 1, false)
  const HUMIDITY: Field := Field("humidity", Float, 2, false)
  const ROOM_ID: Field := Field("room_id", String, 3, false)

  lemma TemperatureLine()
    ensures Line(TEMPERATURE) == "1:float:temperature"
  {
  }

  lemma HumidityLine()
    ensures Line(HUMIDITY) == "2:float:humidity"
  {
  }

  lemma RoomIdLine()
    ensures Line(ROOM_ID) == "3:string:room_id"
  {
  }

  lemma ThreeAscend(a: string, b: string, c: string)
    requires a != [] && b != [] && c != [] && a[0] < b[0] < c[0]
    ensures Ascending([a, b, c])
  {
    hide Less;
    FirstCharacter(a, b);
    FirstCharacter(a, c);
    FirstCharacter(b, c);
  }

  lemma ThreeLines(a: string, b: string, c: string)
    ensures Join([a, b, c]) == a + "\n" + b + "\n" + c
  {
    assert [a, b, c][1..] == [b, c] && [b, c][1..] == [c];
    JoinHead([a, b, c]);
    JoinHead([b, c]);
    assert Join([c]) == c;
    assert a + ("\n" + (b + ("\n" + c))) == a + "\n" + b + "\n" + c;
  }

  lemma FirstCharacter(a: string, b: string)
    requires a != [] && b != [] && a[0] < b[0]
    ensures !Less(b, a)
  {
  }

  lemma SortedAlready(s: seq<string>)
    requires Ascending(s)
    ensures Sort(s) == s
  {
    hide Sort, Less;
    SortSorts(s);
    AscendingUnique(s, Sort(s));
  }

  // ---------------------------------------------------------------- which schemas print alike

  function InsertField(t: seq<Field>, x: Field): (r: seq<Field>)
    ensures |r| == |t| + 1
  {
    if t == [] || !Less(Line(x), Line(t[|t| - 1])) then t + [x]
    else InsertField(t[..|t| - 1], x) + [t[|t| - 1]]
  }

  // The fields in the order in which their lines are printed.
  function Arrange(fields: seq<Field>): (r: seq<Field>)
    ensures |r| == |fields|
  {
    if fields == [] then [] else InsertField(Arrange(fields[..|fields| - 1]), fields[|fields| - 1])
  }

  lemma {:induction false} InsertFieldLines(t: seq<Field>, x: Field)
    ensures Lines(InsertField(t, x)) == Insert(Lines(t), Line(x))
    ensures multiset(InsertField(t, x)) == multiset(t) + multiset{x}
    decreases |t|
  {
    hide Line, Less;
    if t != [] && Less(Line(x), Line(t[|t| - 1])) {
      var n := |t| - 1;
      InsertFieldLines(t[..n], x);
      assert t == t[..n] + [t[n]];
      assert Lines(t)[..n] == Lines(t[..n]);
      LinesConcat(InsertField(t[..n], x), [t[n]]);
      assert Lines([t[n]]) == [Line(t[n])];
    } else {
      LinesConcat(t, [x]);
      assert Lines([x]) == [Line(x)];
    }
  }

  lemma {:induction false} ArrangeSorts(fields: seq<Field>)
    ensures Lines(Arrange(fields)) == Sort(Lines(fields)) && multiset(Arrange(fields)) == multiset(fields)
    decreases |fields|
  {
    hide Line, Insert, InsertField;
    if fields != [] {
      var n := |fields| - 1;
      ArrangeSorts(fields[..n]);
      InsertFieldLines(Arrange(fields[..n]), fields[n]);
      assert fields == fields[..n] + [fields[n]];
      assert Lines(fields)[..n] == Lines(fields[..n]) && Lines(fields)[n] == Line(fields[n]);
    }
  }

  lemma JoinHead(lines: seq<string>)
    requires lines != []
    ensures Join(lines) == lines[0] + if |lines| == 1 then "" else "\n" + Join(lines[1..])
  {
    if |lines| == 1 {
      assert lines[0] + "" == lines[0];
    }
  }

  lemma LinesTail(fields: seq<Field>)
    requires fields != []
    ensures Lines(fields)[0] == Line(fields[0]) && Lines(fields)[1..] == Lines(fields[1..])
  {
    hide Line;
  }

  lemma ArrangedField(fields: seq<Field>, i: nat)
    requires i < |fields|
    ensures Arrange(fields)[i] in fields
  {
    hide Arrange, Sort;
    ArrangeSorts(fields);
    assert Arrange(fields)[i] in multiset(fields);
  }

  // Every valid schema of two or more fields prints like a valid schema of one: the first line's field, with
  // the other lines in its name.
  lemma OneFieldTwin(f: seq<Field>) returns (twin: Field)
    requires WellFormed(f) && |f| >= 2
    ensures WellFormed([twin]) && Canonical([twin]) == Canonical(f) && multiset([twin]) != multiset(f)
  {
    hide Sort, Join, Arrange, Line, Less;
    ArrangeSorts(f);
    ArrangedField(f, 0);
    var a := Arrange(f);
    var rest := "\n" + Join(Lines(a)[1..]);
    twin := a[0].(name := a[0].name + rest);
    JoinHead(Lines(a));
    LinesTail(a);
    LongerName(a[0], rest);
    SingleField(twin);
    assert |multiset([twin])| == 1 && |multiset(f)| == |f|;
  }

  lemma LongerName(f: Field, more: string)
    ensures Line(f.(name := f.name + more)) == Line(f) + more
  {
    hide Decimal;
  }

  lemma SingleField(f: Field)
    ensures Lines([f]) == [Line(f)] && Canonical([f]) == Line(f)
  {
    hide Line, Less, Sort;
    SortedAlready([Line(f)]);
  }

  // Another valid schema prints like it.
  ghost predicate HasTwin(f: seq<Field>)
  {
    exists g: seq<Field> :: g != [] && WellFormed(g) && Canonical(g) == Canonical(f) && multiset(g) != multiset(f)
  }

  // The name is a shorter name and, on a line of its own, a further valid field that sorts behind.
  ghost predicate SplitsInto(x: Field, n: string, y: Field)
  {
    && x.name == n + "\n" + Line(y) && y.name != n
    && ValidTag(y.tag) && !y.typ.Unknown? && y.tag != x.tag && PrintsFirst(x.tag, y.tag)
  }

  ghost predicate Splits(x: Field)
  {
    exists n, y :: SplitsInto(x, n, y)
  }

  // Exactly which valid schemas share their canonical string with another one: all of two or more fields,
  // and those of one field whose name splits.
  lemma TwinIff(f: seq<Field>)
    requires f != [] && WellFormed(f)
    ensures HasTwin(f) <==> |f| >= 2 || Splits(f[0])
  {
    hide Canonical, WellFormed, SplitsInto;
    if |f| >= 2 {
      var twin := OneFieldTwin(f);
      assert [twin] != [];
    } else {
      assert f == [f[0]];
      if Splits(f[0]) {
        var n, y :| SplitsInto(f[0], n, y);
        SplitTwin(f[0], n, y);
      }
      if HasTwin(f) {
        var g :| g != [] && WellFormed(g) && Canonical(g) == Canonical(f) && multiset(g) != multiset(f);
        TwinSplits(f[0], g);
      }
    }
  }

  lemma SplitTwin(x: Field, n: string, y: Field)
    requires WellFormed([x]) && SplitsInto(x, n, y)
    ensures HasTwin([x])
  {
    hide Line, Less, Sort, PrintsFirst;
    var u := x.(name := n);
    var g := [u, y];
    LinesInPrintOrder(u, y);
    assert Lines(g) == [Line(u), Line(y)];
    SortedAlready(Lines(g));
    JoinHead(Lines(g));
    assert Lines(g)[1..] == [Line(y)];
    LongerName(u, "\n" + Line(y));
    assert n + ("\n" + Line(y)) == x.name;
    SingleField(x);
    assert Canonical(g) == Canonical([x]);
    assert |multiset(g)| == 2 && |multiset([x])| == 1;
  }

  lemma TwinSplits(x: Field, g: seq<Field>)
    requires WellFormed([x]) && g != [] && WellFormed(g) && Canonical(g) == Canonical([x]) && multiset(g) != multiset([x])
    ensures Splits(x)
  {
    hide Line, Sort, Join, Arrange, Lines, Ascending, SplitsInto, WellFormed;
    SingleField(x);
    KnownType(x);
    Arranged(g);
    ArrangedValid(g);
    var a := Arrange(g);
    if |a| == 1 {
      OneFieldAgain(x, g);
    } else {
      var y := SplitAfterFirst(x, a);
      if y.name != a[0].name {
        assert SplitsInto(x, a[0].name, y);
      } else {
        var n := SplitBeforeLast(x, a, y);
        assert SplitsInto(x, n, a[|a| - 1]);
      }
    }
  }

  lemma KnownType(x: Field)
    requires WellFormed([x])
    ensures !x.typ.Unknown?
  {
    assert [x][0] == x;
  }

  lemma OneFieldAgain(x: Field, g: seq<Field>)
    requires |g| == 1 && WellFormed([x]) && WellFormed(g) && Canonical(g) == Line(x)
    ensures g == [x]
  {
    hide Line, Canonical, WellFormed;
    assert g == [g[0]];
    KnownType(x);
    KnownType(g[0]);
    SingleField(g[0]);
    LineInjective(g[0], x);
  }

  // What a printed valid schema keeps.
  ghost predicate Printed(a: seq<Field>)
  {
    && (forall i :: 0 <= i < |a| ==> ValidTag(a[i].tag) && !a[i].typ.Unknown?)
    && (forall i, j :: 0 <= i < j < |a| ==> a[i].tag != a[j].tag && a[i].name != a[j].name && PrintsFirst(a[i].tag, a[j].tag))
  }

  lemma ArrangedValid(g: seq<Field>)
    requires WellFormed(g)
    ensures Printed(Arrange(g))
  {
    hide Line, Sort, Arrange, Less, PrintsFirst;
    Arranged(g);
    var a := Arrange(g);
    forall i | 0 <= i < |a|
      ensures a[i] in g
    {
      ArrangedField(g, i);
    }
    forall i, j | 0 <= i < j < |a|
      ensures a[i].name != a[j].name && PrintsFirst(a[i].tag, a[j].tag)
    {
      var k :| 0 <= k < |g| && g[k] == a[i];
      var l :| 0 <= l < |g| && g[l] == a[j];
      assert Lines(a)[i] == Line(a[i]) && Lines(a)[j] == Line(a[j]);
      LinesInPrintOrder(a[i], a[j]);
    }
  }

  // The first line's field, and all further lines as one field.
  lemma SplitAfterFirst(x: Field, a: seq<Field>) returns (y: Field)
    requires |a| >= 2 && Printed(a) && !x.typ.Unknown? && Join(Lines(a)) == Line(x)
    ensures y.name != a[0].name ==> SplitsInto(x, a[0].name, y)
    ensures x == a[0].(name := a[0].name + "\n" + Join(Lines(a[1..])))
    ensures y.name == a[1].name + if |a| == 2 then "" else "\n" + Join(Lines(a[2..]))
  {
    hide Line, Join, PrintsFirst;
    JoinHead(Lines(a));
    LinesTail(a);
    var rest := a[1..];
    JoinHead(Lines(rest));
    LinesTail(rest);
    assert rest[1..] == a[2..];
    var more := if |a| == 2 then "" else "\n" + Join(Lines(a[2..]));
    y := a[1].(name := a[1].name + more);
    LongerName(a[1], more);
    assert Join(Lines(rest)) == Line(y);
    AllInOne(x, a[0], "\n" + Join(Lines(rest)));
    assert a[0].name + ("\n" + Line(y)) == a[0].name + "\n" + Line(y);
  }

  lemma AllInOne(x: Field, f: Field, more: string)
    requires !x.typ.Unknown? && !f.typ.Unknown? && Line(f) + more == Line(x)
    ensures x == f.(name := f.name + more)
  {
    hide Line;
    LongerName(f, more);
    LineInjective(x, f.(name := f.name + more));
  }

  lemma {:induction false} JoinLast(lines: seq<string>)
    requires |lines| >= 2
    ensures Join(lines) == Join(lines[..|lines| - 1]) + "\n" + lines[|lines| - 1]
    decreases |lines|
  {
    hide Join;
    var n := |lines| - 1;
    JoinHead(lines);
    JoinHead(lines[..n]);
    if n == 1 {
      JoinHead(lines[1..]);
    } else {
      JoinLast(lines[1..]);
      assert lines[1..][..n - 1] == lines[..n][1..];
    }
  }

  // All lines but the last as one field, whose name is then too long to be the last one's.
  lemma SplitBeforeLast(x: Field, a: seq<Field>, y: Field) returns (n: string)
    requires |a| >= 2 && Printed(a)
    requires x == a[0].(name := a[0].name + "\n" + Join(Lines(a[1..])))
    requires y.name == a[1].name + if |a| == 2 then "" else "\n" + Join(Lines(a[2..]))
    requires y.name == a[0].name
    ensures SplitsInto(x, n, a[|a| - 1])
  {
    hide Line, Join, PrintsFirst;
    var m := |a| - 1;
    assert |a| >= 3 by {
      assert a[1].name + "" == a[1].name;
    }
    var rest := a[1..];
    var front := Join(Lines(rest)[..m - 1]);
    n := a[0].name + "\n" + front;
    assert rest[m - 1] == a[m];
    JoinLast(Lines(rest));
    assert Lines(rest)[m - 1] == Line(a[m]);
    assert x.name == n + "\n" + Line(a[m]);
    LastLineFits(a[2..]);
    assert |n| > |a[m].name|;
  }

  lemma LastLineFits(a: seq<Field>)
    requires a != []
    ensures |a[|a| - 1].name| <= |Join(Lines(a))|
  {
    hide Join, Decimal;
    var n := |a| - 1;
    assert Lines(a)[n] == Line(a[n]);
    JoinHead(Lines(a));
    if n > 0 {
      JoinLast(Lines(a));
    }
  }

  lemma SplitsAtNewline(x: Field)
    ensures Splits(x) ==> '\n' in x.name
  {
    hide Line, PrintsFirst;
    if Splits(x) {
      var n, y :| SplitsInto(x, n, y);
      assert x.name[|n|] == '\n';
    }
  }

  // So among schemas with names on one line exactly those of one field are told apart from every other
  // valid schema.
  lemma UniqueIffOneField(f: seq<Field>)
    requires f != [] && WellFormed(f) && forall x :: x in f ==> '\n' !in x.name
    ensures HasTwin(f) <==> |f| >= 2
  {
    hide HasTwin, Splits;
    TwinIff(f);
    SplitsAtNewline(f[0]);
  }

  // ---------------------------------------------------------------- changing one field

  ghost predicate TagsDistinct(fields: seq<Field>)
  {
    forall i, j :: 0 <= i < j < |fields| ==> fields[i].tag != fields[j].tag
  }

  ghost predicate Known(fields: seq<Field>)
  {
    forall i :: 0 <= i < |fields| ==> !fields[i].typ.Unknown?
  }

  lemma OneOfEach(fields: seq<Field>, x: Field)
    requires TagsDistinct(fields) && x in fields
    ensures multiset(fields)[x] == 1
  {
    var k :| 0 <= k < |fields| && fields[k] == x;
    var a, b := fields[..k], fields[k + 1..];
    assert fields == a + [x] + b;
    assert x !in a && x !in b;
  }

  lemma NoneOf(fields: seq<Field>, k: nat, x: Field)
    requires TagsDistinct(fields) && k < |fields| && fields[k].tag == x.tag && fields[k] != x
    ensures multiset(fields)[x] == 0
  {
    assert x !in fields;
  }

  // The first line shows its tag, whatever the names contain.
  lemma SameFirstTag(a: seq<Field>, b: seq<Field>)
    requires a != [] && b != [] && Join(Lines(a)) == Join(Lines(b))
    ensures a[0].tag == b[0].tag
  {
    hide Decimal, Rest, Join;
    var restA := FirstLine(a);
    var restB := FirstLine(b);
    DecimalDigits(a[0].tag);
    DecimalDigits(b[0].tag);
    SplitAtSeparator(':', Decimal(a[0].tag), restA, Decimal(b[0].tag), restB);
    DecimalInjective(a[0].tag, b[0].tag);
  }

  lemma FirstLine(a: seq<Field>) returns (rest: string)
    requires a != []
    ensures Join(Lines(a)) == Decimal(a[0].tag) + ":" + rest
  {
    hide Decimal, Rest, Join;
    JoinHead(Lines(a));
    var more := if |a| == 1 then "" else "\n" + Join(Lines(a)[1..]);
    rest := Rest(a[0]) + more;
    assert Line(a[0]) + more == Decimal(a[0].tag) + ":" + rest;
  }

  lemma TailOf(a: seq<Field>)
    requires a != [] && TagsDistinct(a)
    ensures multiset(a[1..]) == multiset(a) - multiset{a[0]} && TagsDistinct(a[1..])
  {
    assert a == [a[0]] + a[1..];
  }

  lemma WithoutFirst(a: seq<Field>)
    requires a != [] && TagsDistinct(a) && Known(a) && Ascending(Lines(a))
    ensures multiset(a[1..]) == multiset(a) - multiset{a[0]}
    ensures TagsDistinct(a[1..]) && Known(a[1..]) && Ascending(Lines(a[1..]))
  {
    hide Line, Less, TagsDistinct;
    TailOf(a);
    LinesTail(a);
    DropFirst(Lines(a));
  }

  lemma SameTails(a: seq<Field>, b: seq<Field>)
    requires a != [] && |a| == |b| && Line(a[0]) == Line(b[0]) && Join(Lines(a)) == Join(Lines(b))
    ensures Join(Lines(a[1..])) == Join(Lines(b[1..]))
  {
    hide Line, Join;
    JoinHead(Lines(a));
    JoinHead(Lines(b));
    LinesTail(a);
    LinesTail(b);
    if |a| == 1 {
      assert a[1..] == b[1..];
    } else {
      var l, s, t := Line(a[0]), "\n" + Join(Lines(a[1..])), "\n" + Join(Lines(b[1..]));
      assert (l + s)[|l|..] == s && (l + t)[|l|..] == t;
      assert s[1..] == Join(Lines(a[1..])) && t[1..] == Join(Lines(b[1..]));
    }
  }

  lemma SameHeads(a: seq<Field>, b: seq<Field>)
    requires a != [] && |a| == |b| && Lines(a[1..]) == Lines(b[1..]) && Join(Lines(a)) == Join(Lines(b))
    ensures Line(a[0]) == Line(b[0])
  {
    hide Line, Join;
    JoinHead(Lines(a));
    JoinHead(Lines(b));
    LinesTail(a);
    LinesTail(b);
    var l, m, s := Line(a[0]), Line(b[0]), if |a| == 1 then "" else "\n" + Join(Lines(a[1..]));
    assert l + s == m + s;
    assert (l + s)[..|l|] == l && (m + s)[..|m|] == m;
  }

  // Two printed schemas that differ in one field at most, and print alike, do not differ.
  lemma {:induction false} OneDifference(a: seq<Field>, b: seq<Field>, x: Field, y: Field)
    requires TagsDistinct(a) && Known(a) && Ascending(Lines(a))
    requires TagsDistinct(b) && Known(b) && Ascending(Lines(b))
    requires x in a && y in b && multiset(a) - multiset{x} == multiset(b) - multiset{y}
    requires Join(Lines(a)) == Join(Lines(b))
    ensures x == y
    decreases |a|
  {
    hide TagsDistinct, Known, Ascending, Lines, Join, Line;
    SameSize(a, b, x, y);
    SameFirstTag(a, b);
    WithoutFirst(a);
    WithoutFirst(b);
    var h, k := a[0], b[0];
    OneOfEach(a, x);
    OneOfEach(b, y);
    if h == k {
      OneOfEach(a, h);
      OneOfEach(b, h);
      assert (multiset(a) - multiset{x})[h] == (multiset(b) - multiset{y})[h];
      assert x == h <==> y == h;
      if x != h {
        SameTails(a, b);
        InTail(a, x);
        InTail(b, y);
        TailsDiffer(multiset(a), multiset(b), h, x, y);
        OneDifference(a[1..], b[1..], x, y);
      }
    } else {
      NoneOf(b, 0, h);
      NoneOf(a, 0, k);
      OneOfEach(a, h);
      OneOfEach(b, k);
      assert (multiset(a) - multiset{x})[h] == (multiset(b) - multiset{y})[h];
      assert (multiset(a) - multiset{x})[k] == (multiset(b) - multiset{y})[k];
      assert x == h && y == k;
      LinesPermuted(a[1..], b[1..]);
      AscendingUnique(Lines(a[1..]), Lines(b[1..]));
      SameHeads(a, b);
      KnownFirst(a);
      KnownFirst(b);
      LineInjective(h, k);
    }
  }

  lemma KnownFirst(a: seq<Field>)
    requires a != [] && Known(a)
    ensures !a[0].typ.Unknown?
  {
  }

  lemma SameSize(a: seq<Field>, b: seq<Field>, x: Field, y: Field)
    requires x in a && y in b && multiset(a) - multiset{x} == multiset(b) - multiset{y}
    ensures a != [] && |a| == |b|
  {
    assert x in multiset(a) && y in multiset(b);
    assert |multiset(a) - multiset{x}| == |a| - 1 && |multiset(b) - multiset{y}| == |b| - 1;
  }

  lemma InTail(a: seq<Field>, x: Field)
    requires x in a && a[0] != x
    ensures x in a[1..]
  {
  }

  lemma TailsDiffer(a: multiset<Field>, b: multiset<Field>, h: Field, x: Field, y: Field)
    requires x in a && y in b && h in a && h in b && x != h && y != h && a - multiset{x} == b - multiset{y}
    ensures a - multiset{h} - multiset{x} == b - multiset{h} - multiset{y}
  {
    assert a - multiset{h} - multiset{x} == a - multiset{x} - multiset{h};
    assert b - multiset{h} - multiset{y} == b - multiset{y} - multiset{h};
  }

  // Changing one field of a valid schema into anything valid changes the canonical string, whatever the
  // names contain.
  lemma OneChangeShows(f: seq<Field>, k: nat, x: Field)
    requires k < |f| && WellFormed(f) && WellFormed(f[k := x])
    ensures Canonical(f[k := x]) == Canonical(f) <==> x == f[k]
  {
    hide Sort, Join, Arrange, Lines, Ascending;
    if x == f[k] {
      assert f[k := x] == f;
    } else if Canonical(f[k := x]) == Canonical(f) {
      Arranged(f);
      Arranged(f[k := x]);
      Replaced(f, k, x);
      assert f[k] in multiset(Arrange(f)) && x in multiset(Arrange(f[k := x]));
      OneDifference(Arrange(f), Arrange(f[k := x]), f[k], x);
    }
  }

  lemma Replaced(f: seq<Field>, k: nat, x: Field)
    requires k < |f|
    ensures f[k] in multiset(f) && x in multiset(f[k := x])
    ensures multiset(f) - multiset{f[k]} == multiset(f[k := x]) - multiset{x}
  {
    var a, b := f[..k], f[k + 1..];
    assert f == a + [f[k]] + b;
    assert f[k := x] == a + [x] + b;
    WithoutMiddle(a, f[k], b);
    WithoutMiddle(a, x, b);
  }

  lemma WithoutMiddle(a: seq<Field>, x: Field, b: seq<Field>)
    ensures x in multiset(a + [x] + b)
    ensures multiset(a + [x] + b) - multiset{x} == multiset(a) + multiset(b)
  {
  }

  lemma WellFormedTags(f: seq<Field>)
    requires WellFormed(f)
    ensures TagsDistinct(f)
  {
  }

  lemma Arranged(f: seq<Field>)
    requires WellFormed(f)
    ensures var a := Arrange(f);
      && multiset(a) == multiset(f) && Lines(a) == Sort(Lines(f)) && Ascending(Lines(a))
      && TagsDistinct(a) && Known(a)
  {
    hide Sort, Arrange, Lines, Ascending;
    ArrangeSorts(f);
    SortSorts(Lines(f));
    assert TagsDistinct(f) by {
      WellFormedTags(f);
    }
    PermutedDistinct(f, Arrange(f));
    PermutedKnown(f, Arrange(f));
  }

  lemma PermutedKnown(f: seq<Field>, a: seq<Field>)
    requires WellFormed(f) && multiset(a) == multiset(f)
    ensures Known(a)
  {
    forall i | 0 <= i < |a|
      ensures !a[i].typ.Unknown?
    {
      assert a[i] in multiset(f);
    }
  }

  lemma PermutedDistinct(f: seq<Field>, a: seq<Field>)
    requires TagsDistinct(f) && multiset(a) == multiset(f)
    ensures TagsDistinct(a)
  {
    forall i, j | 0 <= i < j < |a|
      ensures a[i].tag != a[j].tag
    {
      TwoOfThem(a, i, j);
      OneOfEach(f, a[i]);
      SameTagIsSame(f, a[i], a[j]);
    }
  }

  lemma TwoOfThem(a: seq<Field>, i: nat, j: nat)
    requires i < j < |a|
    ensures a[i] == a[j] ==> multiset(a)[a[i]] >= 2
    ensures a[i] in multiset(a) && a[j] in multiset(a)
  {
    assert a == a[..i] + [a[i]] + a[i + 1..j] + [a[j]] + a[j + 1..];
  }

  lemma SameTagIsSame(f: seq<Field>, x: Field, y: Field)
    requires TagsDistinct(f) && x in multiset(f) && y in multiset(f)
    ensures x.tag == y.tag ==> x == y
  {
  }

  // A field more makes the canonical string longer.
  function Total(lines: seq<string>): nat
  {
    if lines == [] then 0 else Total(lines[..|lines| - 1]) + |lines[|lines| - 1]| + 1
  }

  lemma {:induction false} TotalInsert(t: seq<string>, x: string)
    ensures Total(Insert(t, x)) == Total(t) + |x| + 1
    decreases |t|
  {
    hide Less;
    if t == [] || !Less(x, t[|t| - 1]) {
      assert (t + [x])[..|t|] == t;
    } else {
      var n := |t| - 1;
      TotalInsert(t[..n], x);
      assert (Insert(t[..n], x) + [t[n]])[..n + 1] == Insert(t[..n], x);
    }
  }

  lemma {:induction false} TotalSort(s: seq<string>)
    ensures Total(Sort(s)) == Total(s)
    decreases |s|
  {
    hide Insert;
    if s != [] {
      TotalSort(s[..|s| - 1]);
      TotalInsert(Sort(s[..|s| - 1]), s[|s| - 1]);
    }
  }

  lemma {:induction false} TotalFirst(lines: seq<string>)
    requires lines != []
    ensures Total(lines) == |lines[0]| + 1 + Total(lines[1..])
    decreases |lines|
  {
    var n := |lines| - 1;
    if n > 0 {
      TotalFirst(lines[..n]);
      assert lines[..n][1..] == lines[1..][..n - 1];
    }
  }

  lemma {:induction false} JoinLength(lines: seq<string>)
    ensures |Join(lines)| == if lines == [] then 0 else Total(lines) - 1
    decreases |lines|
  {
    if lines != [] {
      TotalFirst(lines);
      JoinLength(lines[1..]);
    }
  }

  lemma OneMoreShows(f: seq<Field>, x: Field)
    ensures |Canonical(f + [x])| > |Canonical(f)|
  {
    hide Canonical, Lines, Line;
    CanonicalLength(f);
    CanonicalLength(f + [x]);
    LinesConcat(f, [x]);
    SingleLine(x);
    TotalSnoc(Lines(f), Line(x));
  }

  lemma SingleLine(x: Field)
    ensures Lines([x]) == [Line(x)]
  {
    hide Line;
  }

  lemma TotalSnoc(lines: seq<string>, l: string)
    ensures Total(lines + [l]) == Total(lines) + |l| + 1
  {
    assert (lines + [l])[..|lines|] == lines;
  }

  lemma CanonicalLength(f: seq<Field>)
    ensures |Canonical(f)| == if f == [] then 0 else Total(Lines(f)) - 1
  {
    hide Sort, Join, Lines;
    TotalSort(Lines(f));
    JoinLength(Sort(Lines(f)));
  }

  // ---------------------------------------------------------------- which schemas share an id

  // The ids of two schemas agree if and only if the remainder of the difference of their canonical strings,
  // as dividends, has no term above x^15.
  lemma IdsAgreeIff(f: seq<Field>, g: seq<Field>, utf8: string -> seq<byte>)
    ensures SchemaId(f, utf8) == SchemaId(g, utf8)
            <==> exists r: nat :: r < 0x1_0000
                   && TopicHash.IsRemainder(Xor(TopicHash.Dividend(utf8(Canonical(f))), TopicHash.Dividend(utf8(Canonical(g)))), r)
  {
    hide TopicHash.Crc32, TopicHash.IsRemainder, TopicHash.Dividend, Xor, Canonical;
    TopicHash.LowHalvesAgreeIff(utf8(Canonical(f)), utf8(Canonical(g)));
  }

  // More values than places for them: two are equal.
  lemma {:induction false} Pigeonhole(h: seq<nat>, m: nat) returns (i: nat, j: nat)
    requires |h| > m && forall k :: 0 <= k < |h| ==> h[k] < m
    ensures i < j < |h| && h[i] == h[j]
    decreases m
  {
    var n := |h| - 1;
    var v := h[n];
    if v in h[..n] {
      i :| 0 <= i < n && h[..n][i] == v;
      j := n;
    } else {
      var moved: seq<nat> := seq(n, k requires 0 <= k < n => if h[k] == m - 1 then v else h[k]);
      assert forall k :: 0 <= k < n ==> h[k] == h[..n][k] && h[k] != v;
      i, j := Pigeonhole(moved, m - 1);
    }
  }

  function LongestName(fields: seq<Field>): nat
  {
    if fields == [] then 0
    else
      var rest, here := LongestName(fields[1..]), |fields[0].name|;
      if here > rest then here else rest
  }

  lemma {:induction false} NoLongerName(fields: seq<Field>)
    ensures forall i :: 0 <= i < |fields| ==> |fields[i].name| <= LongestName(fields)
  {
    if fields != [] {
      NoLongerName(fields[1..]);
      assert forall i :: 0 < i < |fields| ==> fields[i] == fields[1..][i - 1];
    }
  }

  // A name that no field has, for each number.
  function FreshName(fields: seq<Field>, i: nat): string
  {
    seq(LongestName(fields), _ => 'x') + Decimal(i)
  }

  function Renamed(fields: seq<Field>, k: nat, name: string): seq<Field>
    requires k < |fields|
  {
    fields[k := fields[k].(name := name)]
  }

  lemma RenamedWellFormed(f: seq<Field>, k: nat, i: nat)
    requires k < |f| && WellFormed(f)
    ensures WellFormed(Renamed(f, k, FreshName(f, i))) && '\n' !in FreshName(f, i)
  {
    hide Decimal;
    NoLongerName(f);
    DecimalDigits(i);
  }

  lemma FreshNamesDiffer(f: seq<Field>, i: nat, j: nat)
    requires i != j
    ensures FreshName(f, i) != FreshName(f, j)
  {
    hide Decimal;
    var n := LongestName(f);
    assert FreshName(f, i)[n..] == Decimal(i) && FreshName(f, j)[n..] == Decimal(j);
    DecimalInjective(i, j);
  }

  // Names on one line are no guarantee: in every valid schema, any field has two names, on one line, between
  // which renaming it changes the canonical string but not the id -- whatever the text encoding.
  lemma RenamingKeepsId(f: seq<Field>, k: nat, utf8: string -> seq<byte>) returns (a: string, b: string)
    requires k < |f| && WellFormed(f)
    ensures a != b && '\n' !in a && '\n' !in b
    ensures WellFormed(Renamed(f, k, a)) && WellFormed(Renamed(f, k, b))
    ensures Canonical(Renamed(f, k, a)) != Canonical(Renamed(f, k, b))
    ensures SchemaId(Renamed(f, k, a), utf8) == SchemaId(Renamed(f, k, b), utf8)
  {
    hide SchemaId, FreshName, Canonical, WellFormed;
    var ids: seq<nat> := seq(0x1_0001, i requires 0 <= i < 0x1_0001 => SchemaId(Renamed(f, k, FreshName(f, i)), utf8));
    assert forall i :: 0 <= i < 0x1_0001 ==> ids[i] < 0x1_0000;
    var i, j := Pigeonhole(ids, 0x1_0000);
    a, b := FreshName(f, i), FreshName(f, j);
    FreshNamesDiffer(f, i, j);
    RenamedWellFormed(f, k, i);
    RenamedWellFormed(f, k, j);
    assert Renamed(f, k, b) == Renamed(f, k, a)[k := Renamed(f, k, b)[k]];
    OneChangeShows(Renamed(f, k, a), k, Renamed(f, k, b)[k]);
  }

  // ---------------------------------------------------------------- string order against tag order

  // n without its last k decimal digits.
  function DropDigits(n: nat, k: nat): nat
  {
    if k == 0 then n else DropDigits(n / 10, k - 1)
  }

  function Width(n: nat): nat { |Decimal(n)| }

  // When the lines of tags t < u come in that order.
  predicate InTagOrder(t: nat, u: nat)
    requires t < u
  {
    Width(t) == Width(u) || (Width(t) < Width(u) && t < DropDigits(u, Width(u) - Width(t)))
  }

  lemma {:induction false} LessAppend(a: string, x: string, b: string, y: string)
    requires |a| == |b|
    ensures Less(a + x, b + y) <==> Less(a, b) || (a == b && Less(x, y))
    decreases |a|
  {
    if a == [] {
      assert a + x == x && b + y == y;
    } else {
      assert (a + x)[1..] == a[1..] + x && (b + y)[1..] == b[1..] + y;
      assert a == [a[0]] + a[1..] && b == [b[0]] + b[1..];
      LessAppend(a[1..], x, b[1..], y);
    }
  }

  // Numbers of the same width sort as strings the way they sort as numbers.
  lemma {:induction false} SameWidth(m: nat, n: nat)
    requires Width(m) == Width(n)
    ensures Less(Decimal(m), Decimal(n)) <==> m < n
    decreases m + n
  {
    if m < 10 || n < 10 {
      LessAppend([], Decimal(m), [], Decimal(n));
    } else {
      SameWidth(m / 10, n / 10);
      DecimalInjective(m / 10, n / 10);
      LessAppend(Decimal(m / 10), [Digit(m % 10)], Decimal(n / 10), [Digit(n % 10)]);
    }
  }

  lemma {:induction false} WidthGrows(m: nat, n: nat)
    requires m <= n
    ensures Width(m) <= Width(n)
    decreases n
  {
    if m >= 10 {
      WidthGrows(m / 10, n / 10);
    }
  }

  // The leading digits of a number.
  lemma {:induction false} Leading(n: nat, k: nat) returns (suffix: string)
    requires k < Width(n)
    ensures Decimal(n) == Decimal(DropDigits(n, k)) + suffix && |suffix| == k
    ensures forall c :: c in suffix ==> '0' <= c <= '9'
    decreases k
  {
    if k == 0 {
      suffix := [];
    } else {
      var s := Leading(n / 10, k - 1);
      suffix := s + [Digit(n % 10)];
      var lead := Decimal(DropDigits(n, k));
      assert (lead + s) + [Digit(n % 10)] == lead + (s + [Digit(n % 10)]);
    }
  }

  lemma LinesInTagOrder(f: Field, g: Field)
    requires f.tag < g.tag
    ensures Less(Line(f), Line(g)) <==> InTagOrder(f.tag, g.tag)
  {
    hide Decimal, Less, Rest;
    var t, u := f.tag, g.tag;
    WidthGrows(t, u);
    var k := Width(u) - Width(t);
    var suffix := Leading(u, k);
    var v := DropDigits(u, k);
    var x, y := ":" + Rest(f), suffix + (":" + Rest(g));
    assert Line(f) == Decimal(t) + x;
    assert Line(g) == Decimal(v) + y;
    LessAppend(Decimal(t), x, Decimal(v), y);
    SameWidth(t, v);
    DecimalInjective(t, v);
    ColonAfterDigit(suffix, Rest(f), ":" + Rest(g));
  }

  lemma ColonAfterDigit(suffix: string, x: string, y: string)
    requires forall c :: c in suffix ==> '0' <= c <= '9'
    ensures suffix != [] ==> !Less(":" + x, suffix + y)
  {
    if suffix != [] {
      assert suffix[0] in suffix;
      assert (suffix + y)[0] == suffix[0];
    }
  }

  ghost predicate ByTag(fields: seq<Field>)
  {
    forall i, j :: 0 <= i < j < |fields| ==> fields[i].tag < fields[j].tag
  }

  // Two arrangements of the same fields that print alike are the same, whatever the names contain.
  lemma {:induction false} SameArrangement(a: seq<Field>, b: seq<Field>)
    requires TagsDistinct(a) && TagsDistinct(b) && multiset(a) == multiset(b)
    requires Join(Lines(a)) == Join(Lines(b))
    ensures a == b
    decreases |a|
  {
    hide TagsDistinct, Lines, Join, Line;
    assert |a| == |multiset(a)| == |b|;
    if a != [] {
      SameFirstTag(a, b);
      assert a[0] in multiset(a) && b[0] in multiset(b);
      SameTagIsSame(a, a[0], b[0]);
      SameTails(a, b);
      TailOf(a);
      TailOf(b);
      SameArrangement(a[1..], b[1..]);
      assert a == [a[0]] + a[1..] && b == [b[0]] + b[1..];
    }
  }

  // When the line of the first tag is printed before that of the second.
  predicate PrintsFirst(t: nat, u: nat)
    requires t != u
  {
    if t < u then InTagOrder(t, u) else !InTagOrder(u, t)
  }

  lemma LinesInPrintOrder(f: Field, g: Field)
    requires f.tag != g.tag
    ensures Less(Line(f), Line(g)) <==> PrintsFirst(f.tag, g.tag)
    ensures Less(Line(g), Line(f)) <==> !PrintsFirst(f.tag, g.tag)
  {
    hide Line, Less, InTagOrder;
    LineShowsTag(f, g);
    LessTotal(Line(f), Line(g));
    if f.tag < g.tag {
      LinesInTagOrder(f, g);
    } else {
      LinesInTagOrder(g, f);
    }
  }

  // Where the documentation is right: the lines are in tag order exactly when every two tags are
  // InTagOrder, for which it is enough that all have the same number of digits.
  lemma SortedByTagIff(fields: seq<Field>, byTag: seq<Field>)
    requires multiset(fields) == multiset(byTag) && ByTag(byTag)
    ensures Canonical(fields) == Join(Lines(byTag))
            <==> forall i, j :: 0 <= i < j < |byTag| ==> InTagOrder(byTag[i].tag, byTag[j].tag)
  {
    hide Sort, Line, Join, InTagOrder, Less, Arrange;
    var lines := Lines(byTag);
    LinesPermuted(fields, byTag);
    SortSorts(Lines(fields));
    forall i, j | 0 <= i < j < |byTag|
      ensures !Less(lines[j], lines[i]) <==> InTagOrder(byTag[i].tag, byTag[j].tag)
    {
      LinesInPrintOrder(byTag[i], byTag[j]);
    }
    if Ascending(lines) {
      AscendingUnique(lines, Sort(Lines(fields)));
    }
    if Canonical(fields) == Join(lines) {
      ArrangeSorts(fields);
      PermutedDistinct(byTag, Arrange(fields));
      SameArrangement(Arrange(fields), byTag);
    }
  }

  // Tag 10 sorts before tag 2.
  lemma TenBeforeTwo()
    ensures var f, g := Field("a", Bool, 2, false), Field("b", Bool, 10, false);
      Less(Line(g), Line(f)) && !InTagOrder(f.tag, g.tag)
  {
    var f, g := Field("a", Bool, 2, false), Field("b", Bool, 10, false);
    assert Decimal(10) == Decimal(1) + ['0'] == "10";
    LinesInTagOrder(f, g);
    LessTotal(Line(f), Line(g));
    LineInjective(f, g);
  }
}
