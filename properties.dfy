/** The properties serializer of the generics and reflection exercise.
    `Serialize` renders a value by its kind: booleans, integers and strings as
    text, arrays and slices as their elements joined by commas, nil references
    as `nil`, and a struct as one `name=value` line per field, where the name
    and the `omitempty` option come from the field's `properties` tag.

    A reflected value is modelled by the datatype Value, with one constructor
    per kind the serializer handles; pointers and interfaces share one
    constructor, and a nil pointer, interface, map or slice is NilRef. */
module Properties {
  import Decimal

  datatype Value =
    | Invalid
    | Bool(b: bool)
    | Int(i: int)
    | Uint(u: nat)
    | Str(s: string)
    | Array(elems: seq<Value>)
    | Slice(elems: seq<Value>)
    | Ref(target: Value)
    | NilRef
    | Struct(fields: seq<Field>)

  /** A struct field: its Go name, its `properties` tag and its value. */
  datatype Field = Field(name: string, tag: string, value: Value)

  datatype PropertiesTag = PropertiesTag(name: string, omitempty: bool)

  // ---------------------------------------------------------------------
  // strings.Split and strings.Join on a one-character separator

  predicate Free(s: string, c: char)
  {
    forall k :: 0 <= k < |s| ==> s[k] != c
  }

  /** `strings.Split(s, [c])`: the pieces between the separators, at least one. */
  function Split(s: string, c: char): (r: seq<string>)
    ensures |r| >= 1
  {
    if s == [] then [""]
    else if s[0] == c then [""] + Split(s[1..], c)
    else
      var rest := Split(s[1..], c);
      [[s[0]] + rest[0]] + rest[1..]
  }

  /** `strings.Join(parts, sep)`. */
  function Join(parts: seq<string>, sep: string): string
  {
    if parts == [] then ""
    else if |parts| == 1 then parts[0]
    else parts[0] + sep + Join(parts[1..], sep)
  }

  /** Joining the pieces with the separator gives back the string. */
  lemma {:induction false} JoinSplit(s: string, c: char)
    ensures Join(Split(s, c), [c]) == s
  {
    if s != [] {
      JoinSplit(s[1..], c);
      if s[0] == c {
        JoinSplitSeparator(s, c);
      } else {
        JoinSplitChar(s, c);
      }
    }
  }

  lemma JoinSplitSeparator(s: string, c: char)
    requires s != [] && s[0] == c && Join(Split(s[1..], c), [c]) == s[1..]
    ensures Join(Split(s, c), [c]) == s
  {
    var rest := Split(s[1..], c);
    var r := Split(s, c);
    assert r == [""] + rest;
    assert r[1..] == rest;
    assert Join(r, [c]) == "" + [c] + Join(rest, [c]);
    assert s == [c] + s[1..];
  }

  lemma JoinSplitChar(s: string, c: char)
    requires s != [] && s[0] != c && Join(Split(s[1..], c), [c]) == s[1..]
    ensures Join(Split(s, c), [c]) == s
  {
    var rest := Split(s[1..], c);
    assert Split(s, c) == [[s[0]] + rest[0]] + rest[1..];
    JoinPrepend([s[0]], rest[0], rest[1..], [c]);
    assert [rest[0]] + rest[1..] == rest;
    assert s == [s[0]] + s[1..];
  }

  /** Text put in front of the first part goes in front of the join. */
  lemma JoinPrepend(a: string, b: string, t: seq<string>, sep: string)
    ensures Join([a + b] + t, sep) == a + Join([b] + t, sep)
  {
    if t != [] {
      assert ([a + b] + t)[1..] == t;
      assert ([b] + t)[1..] == t;
      assert a + b + sep + Join(t, sep) == a + (b + sep + Join(t, sep));
    }
  }

  /** No piece holds the separator. */
  lemma {:induction false} SplitPiecesFree(s: string, c: char)
    ensures forall k :: 0 <= k < |Split(s, c)| ==> Free(Split(s, c)[k], c)
  {
    if s != [] {
      SplitPiecesFree(s[1..], c);
      var rest := Split(s[1..], c);
      if s[0] != c {
        assert Free([s[0]] + rest[0], c);
        assert Split(s, c)[1..] == rest[1..];
      }
    }
  }

  lemma SplitFree(s: string, c: char)
    requires Free(s, c)
    ensures Split(s, c) == [s]
  {
    if s != [] {
      SplitFree(s[1..], c);
      assert [s[0]] + s[1..] == s;
    }
  }

  /** Splitting the text of a piece and a separator peels off the piece. */
  lemma {:induction false} SplitCons(p: string, c: char, rest: string)
    requires Free(p, c)
    ensures Split(p + [c] + rest, c) == [p] + Split(rest, c)
  {
    if p == [] {
      assert p + [c] + rest == [c] + rest;
      assert ([c] + rest)[1..] == rest;
    } else {
      assert (p + [c] + rest)[1..] == p[1..] + [c] + rest;
      SplitCons(p[1..], c, rest);
      assert [p[0]] + p[1..] == p;
    }
  }

  /** Pieces free of the separator are read back from their join, in order. */
  lemma {:induction false} SplitJoin(parts: seq<string>, c: char)
    requires |parts| >= 1
    requires forall k :: 0 <= k < |parts| ==> Free(parts[k], c)
    ensures Split(Join(parts, [c]), c) == parts
  {
    if |parts| == 1 {
      SplitFree(parts[0], c);
    } else {
      SplitJoin(parts[1..], c);
      SplitCons(parts[0], c, Join(parts[1..], [c]));
      assert parts == [parts[0]] + parts[1..];
    }
  }

  lemma {:induction false} JoinSnoc(parts: seq<string>, sep: string, x: string)
    ensures Join(parts + [x], sep) == if parts == [] then x else Join(parts, sep) + sep + x
  {
    if parts != [] {
      assert (parts + [x])[1..] == parts[1..] + [x];
      JoinSnoc(parts[1..], sep, x);
      if |parts| == 1 {
        assert parts[1..] == [];
      }
    }
  }

  lemma {:induction false} JoinEmpty(parts: seq<string>, sep: string)
    requires forall k :: 0 <= k < |parts| ==> |parts[k]| > 0
    ensures |Join(parts, sep)| == 0 <==> parts == []
  {
    if |parts| > 1 {
      JoinEmpty(parts[1..], sep);
    }
  }

  // ---------------------------------------------------------------------
  // parsePropertiesTag

  /** The tag's name is its first comma-separated piece; `omitempty` is set
      when some later piece is exactly `omitempty`. */
  function TagOf(v: string): PropertiesTag
  {
    var parts := Split(v, ',');
    PropertiesTag(parts[0], exists k :: 1 <= k < |parts| && parts[k] == "omitempty")
  }

  /** `parsePropertiesTag`: a loop over the pieces of the tag. */
  method ParsePropertiesTag(v: string) returns (res: PropertiesTag)
    ensures res == TagOf(v)
  {
    var parts := Split(v, ',');
    res := PropertiesTag("", false);
    for i := 0 to |parts|
      invariant i > 0 ==> res.name == parts[0]
      invariant res.omitempty <==> exists k :: 1 <= k < i && parts[k] == "omitempty"
    {
      if i == 0 {
        res := res.(name := parts[i]);
      } else if parts[i] == "omitempty" {
        res := res.(omitempty := true);
      }
    }
  }

  /** The name is the tag up to its first comma. */
  lemma TagNamePrefix(v: string)
    ensures Free(TagOf(v).name, ',')
    ensures exists rest :: v == TagOf(v).name + rest && (rest == [] || rest[0] == ',')
  {
    var parts := Split(v, ',');
    JoinSplit(v, ',');
    SplitPiecesFree(v, ',');
    if |parts| == 1 {
      assert v == parts[0] + [];
    } else {
      assert Join(parts, ",") == parts[0] + "," + Join(parts[1..], ",");
      assert v == parts[0] + ("," + Join(parts[1..], ","));
    }
  }

  /** A tag written as comma-free pieces reads back as its first piece and
      whether a later piece is `omitempty`; other pieces are ignored. */
  lemma TagOfPieces(parts: seq<string>)
    requires |parts| >= 1
    requires forall k :: 0 <= k < |parts| ==> Free(parts[k], ',')
    ensures TagOf(Join(parts, ",")) ==
      PropertiesTag(parts[0], exists k :: 1 <= k < |parts| && parts[k] == "omitempty")
  {
    SplitJoin(parts, ',');
  }

  // ---------------------------------------------------------------------
  // serializeAny, serializeArray, serializeStruct

  /** `reflect.Value.IsZero`: the zero value of the value's type. */
  predicate IsZero(v: Value)
  {
    match v
    case Invalid => false
    case Bool(b) => !b
    case Int(i) => i == 0
    case Uint(u) => u == 0
    case Str(s) => s == ""
    case Array(es) => forall k :: 0 <= k < |es| ==> IsZero(es[k])
    case Slice(_) => false
    case Ref(_) => false
    case NilRef => true
    case Struct(fs) => forall k :: 0 <= k < |fs| ==> IsZero(fs[k].value)
  }

  /** The line name of a field: its tag's name, or its Go name when the tag
      gives none. */
  function FieldName(f: Field): string
  {
    var tag := TagOf(f.tag);
    if |tag.name| == 0 then f.name else tag.name
  }

  /** A zero field whose tag says `omitempty` gets no line. */
  predicate Omitted(f: Field)
  {
    IsZero(f.value) && TagOf(f.tag).omitempty
  }

  /** What `serializeAny` returns. */
  function Serialized(v: Value): string
    decreases v, 2
  {
    match v
    case Invalid => "<nil>"
    case Bool(b) => Decimal.FormatBool(b)
    case Int(i) => Decimal.FormatInt(i)
    case Uint(u) => Decimal.FormatInt(u)
    case Str(s) => s
    case Array(_) => ArrayText(v)
    case Slice(_) => ArrayText(v)
    case Ref(t) => Serialized(t)
    case NilRef => "nil"
    case Struct(_) => StructText(v)
  }

  /** The texts of the elements of an array or slice, in order. */
  function ElementTexts(v: Value): (r: seq<string>)
    requires v.Array? || v.Slice?
    decreases v, 0
    ensures |r| == |v.elems|
  {
    seq(|v.elems|, k requires 0 <= k < |v.elems| => Serialized(v.elems[k]))
  }

  function ArrayText(v: Value): string
    requires v.Array? || v.Slice?
    decreases v, 1
  {
    Join(ElementTexts(v), ",")
  }

  /** The `name=value` lines of the first n fields that are not omitted. */
  function Lines(v: Value, n: nat): seq<string>
    requires v.Struct? && n <= |v.fields|
    decreases v, 0, n
  {
    if n == 0 then []
    else
      var f := v.fields[n - 1];
      Lines(v, n - 1) + if Omitted(f) then [] else [FieldName(f) + "=" + Serialized(f.value)]
  }

  function StructText(v: Value): string
    requires v.Struct?
    decreases v, 1
  {
    Join(Lines(v, |v.fields|), "\n")
  }

  /** `Serialize`: what `serializeAny` gives for the reflected object. A
      pointer or interface is transparent, and a struct is its lines joined by
      newlines. */
  function Serialize(obj: Value): (s: string)
    ensures obj.Ref? ==> s == Serialize(obj.target)
    ensures obj.Struct? ==> s == Join(Lines(obj, |obj.fields|), "\n")
  {
    if obj.Struct? then
      assert Serialized(obj) == StructText(obj);
      Serialized(obj)
    else
      Serialized(obj)
  }

  method SerializeAny(val: Value) returns (s: string)
    decreases val, 2
    ensures s == Serialized(val)
  {
    match val
    case Invalid => s := "<nil>";
    case Bool(b) => s := Decimal.FormatBool(b);
    case Int(i) => s := Decimal.FormatInt(i);
    case Uint(u) => s := Decimal.FormatInt(u);
    case Str(t) => s := t;
    case Array(_) => s := SerializeArray(val);
    case Slice(_) => s := SerializeArray(val);
    case Ref(t) => s := SerializeAny(t);
    case NilRef => s := "nil";
    case Struct(_) => s := SerializeStruct(val);
  }

  /** `serializeArray`: collects the element texts, then joins them. */
  method SerializeArray(val: Value) returns (s: string)
    requires val.Array? || val.Slice?
    decreases val, 1
    ensures s == ArrayText(val)
  {
    var parts: seq<string> := [];
    for i := 0 to |val.elems|
      invariant parts == ElementTexts(val)[..i]
    {
      var item := SerializeAny(val.elems[i]);
      parts := parts + [item];
    }
    assert ElementTexts(val)[..|val.elems|] == ElementTexts(val);
    s := Join(parts, ",");
  }

  /** `serializeStruct`: writes one line per field that is not omitted, with a
      newline before every line but the first. */
  method SerializeStruct(val: Value) returns (s: string)
    requires val.Struct?
    decreases val, 1
    ensures s == StructText(val)
  {
    var sb := "";
    for i := 0 to |val.fields|
      invariant sb == Join(Lines(val, i), "\n")
    {
      var f := val.fields[i];
      ghost var lines := Lines(val, i);
      LinesStep(val, i);
      var tag := ParsePropertiesTag(f.tag);
      if |tag.name| == 0 {
        tag := tag.(name := f.name);
      }
      if IsZero(f.value) && tag.omitempty {
        assert Omitted(f);
        continue;
      }
      assert !Omitted(f) && tag.name == FieldName(f);
      var text := SerializeAny(f.value);
      assert Lines(val, i + 1) == lines + [tag.name + "=" + text];
      LinesNonEmpty(val, i);
      WriteLine(lines, tag.name, text);
      if |sb| > 0 {
        sb := sb + "\n";
      }
      sb := sb + tag.name;
      sb := sb + "=";
      sb := sb + text;
    }
    s := sb;
  }

  /** Writing one more line after the lines so far, with a newline first when
      something has been written, gives the join of all the lines. */
  lemma WriteLine(lines: seq<string>, name: string, text: string)
    requires forall k :: 0 <= k < |lines| ==> |lines[k]| > 0
    ensures (if |Join(lines, "\n")| > 0 then Join(lines, "\n") + "\n" else Join(lines, "\n")) + name + "=" + text
      == Join(lines + [name + "=" + text], "\n")
  {
    var line := name + "=" + text;
    JoinEmpty(lines, "\n");
    JoinSnoc(lines, "\n", line);
    AppendLine(Join(lines, "\n"), name, text, Join(lines + [line], "\n"));
  }

  /** The text after one more line: the line alone when nothing was written,
      otherwise a newline and the line. */
  lemma AppendLine(sb: string, name: string, text: string, all: string)
    requires all == if sb == [] then name + "=" + text else sb + "\n" + (name + "=" + text)
    ensures (if |sb| > 0 then sb + "\n" else sb) + name + "=" + text == all
  {
    if sb == [] {
      assert sb + name + "=" + text == name + "=" + text;
    } else {
      ConcatAssoc(sb + "\n", name, "=", text);
    }
  }

  lemma ConcatAssoc(a: string, b: string, c: string, d: string)
    ensures a + b + c + d == a + (b + c + d)
  {
  }

  /** Every line holds at least its `=`. */
  lemma {:induction false} LinesNonEmpty(v: Value, n: nat)
    requires v.Struct? && n <= |v.fields|
    ensures forall k :: 0 <= k < |Lines(v, n)| ==> |Lines(v, n)[k]| > 0
    decreases n
  {
    if n > 0 {
      LinesNonEmpty(v, n - 1);
      var f := v.fields[n - 1];
      var line := FieldName(f) + "=" + Serialized(f.value);
      assert |line| > 0;
      LinesStep(v, n - 1);
    }
  }

  /** The struct text reads back as its lines when no line holds a newline:
      lines in field order, separated by single newlines. */
  lemma StructTextLines(v: Value)
    requires v.Struct?
    requires |Lines(v, |v.fields|)| >= 1
    requires forall k :: 0 <= k < |Lines(v, |v.fields|)| ==> Free(Lines(v, |v.fields|)[k], '\n')
    ensures Split(StructText(v), '\n') == Lines(v, |v.fields|)
  {
    SplitJoin(Lines(v, |v.fields|), '\n');
  }

  /** An array's text reads back as its element texts when none holds a comma. */
  lemma ArrayTextElements(v: Value)
    requires v.Array? || v.Slice?
    requires |v.elems| >= 1
    requires forall k :: 0 <= k < |v.elems| ==> Free(Serialized(v.elems[k]), ',')
    ensures Split(ArrayText(v), ',') == ElementTexts(v)
  {
    SplitJoin(ElementTexts(v), ',');
  }

  /** An omitted field adds no line; any other field adds its line at the end. */
  lemma LinesStep(v: Value, n: nat)
    requires v.Struct? && n < |v.fields|
    ensures Omitted(v.fields[n]) ==> Lines(v, n + 1) == Lines(v, n)
    ensures !Omitted(v.fields[n]) ==>
      Lines(v, n + 1) == Lines(v, n) + [FieldName(v.fields[n]) + "=" + Serialized(v.fields[n].value)]
  {
  }

  /** Integers read back from their text, booleans are `true`/`false`. */
  lemma ScalarTexts(v: Value)
    ensures v.Int? ==> Decimal.IsIntText(Serialized(v)) && Decimal.ParseInt(Serialized(v)) == v.i
    ensures v.Uint? ==> Decimal.AllDigits(Serialized(v)) && Decimal.ParseInt(Serialized(v)) == v.u
    ensures v.Bool? ==> (Serialized(v) == "true" <==> v.b) && (Serialized(v) == "true" || Serialized(v) == "false")
    ensures v.NilRef? ==> Serialized(v) == "nil"
    ensures v.Invalid? ==> Serialized(v) == "<nil>"
  {
    if v.Int? {
      Decimal.ParseFormatInt(v.i);
    } else if v.Uint? {
      Decimal.ParseFormatInt(v.u);
    }
  }

  /** A pointer or interface renders as what it points to. */
  lemma RefTransparent(t: Value)
    ensures Serialized(Ref(t)) == Serialized(t)
    ensures Serialized(Ref(Ref(t))) == Serialized(t)
  {
  }

  // ---------------------------------------------------------------------
  // The test's Person

  const NameTag: string := "name"
  const AddressTag: string := "address,omitempty"
  const AgeTag: string := "age"
  const MarriedTag: string := "married"

  /** The test's `Person` struct, its fields in declaration order. */
  function Person(name: string, address: string, age: int, married: bool): Value
  {
    Struct([
      Field("Name", NameTag, Str(name)),
      Field("Address", AddressTag, Str(address)),
      Field("Age", AgeTag, Int(age)),
      Field("Married", MarriedTag, Bool(married))])
  }

  /** A tag without a comma is all name. */
  lemma TagOfName(name: string)
    requires Free(name, ',')
    ensures TagOf(name) == PropertiesTag(name, false)
  {
    SplitFree(name, ',');
  }

  /** A name followed by one option. */
  lemma TagOfOption(name: string, option: string)
    requires Free(name, ',') && Free(option, ',')
    ensures TagOf(name + [','] + option) == PropertiesTag(name, option == "omitempty")
  {
    SplitCons(name, ',', option);
    SplitFree(option, ',');
    var parts := Split(name + [','] + option, ',');
    assert parts == [name, option];
    assert (exists k :: 1 <= k < |parts| && parts[k] == "omitempty") <==> parts[1] == "omitempty";
  }

  /** The tag of the address field sets `omitempty`; the other three are plain names. */
  lemma AddressTagParsed(tag: string)
    requires tag == AddressTag
    ensures TagOf(tag) == PropertiesTag("address", true)
  {
    assert Free("address", ',') && Free("omitempty", ',');
    assert tag == "address" + [','] + "omitempty";
    TagOfOption("address", "omitempty");
  }

  lemma PlainTagParsed(tag: string)
    requires tag == NameTag || tag == AgeTag || tag == MarriedTag
    ensures TagOf(tag) == PropertiesTag(tag, false)
  {
    assert Free(tag, ',');
    TagOfName(tag);
  }

  /** The line a field of the Person gives, or none when it is omitted. */
  lemma PersonField(p: Value, n: nat, goName: string, tag: string, tagName: string, omitempty: bool,
    v: Value, text: string)
    requires p.Struct? && n < |p.fields| && p.fields[n] == Field(goName, tag, v)
    requires TagOf(tag) == PropertiesTag(tagName, omitempty) && |tagName| > 0
    requires Serialized(v) == text
    ensures Lines(p, n + 1) == Lines(p, n) + if omitempty && IsZero(v) then [] else [tagName + "=" + text]
  {
    LinesStep(p, n);
  }

  lemma SerializedScalars(s: string, i: int, b: bool)
    ensures Serialized(Str(s)) == s
    ensures Serialized(Int(i)) == Decimal.FormatInt(i)
    ensures Serialized(Bool(b)) == Decimal.FormatBool(b)
    ensures IsZero(Str(s)) <==> s == ""
  {
  }

  /** The name line, then the address line only when the address is not empty. */
  lemma PersonNameAddress(name: string, address: string, age: int, married: bool)
    ensures var p := Person(name, address, age, married);
      Lines(p, 2) == ["name" + "=" + name] + (if address == "" then [] else ["address" + "=" + address])
  {
    var p := Person(name, address, age, married);
    SerializedScalars(name, age, married);
    SerializedScalars(address, age, married);
    var nameTag, addressTag := NameTag, AddressTag;
    PlainTagParsed(nameTag);
    AddressTagParsed(addressTag);
    assert Lines(p, 0) == [];
    PersonField(p, 0, "Name", nameTag, "name", false, Str(name), name);
    var l1 := [] + ["name" + "=" + name];
    assert Lines(p, 1) == l1;
    PersonField(p, 1, "Address", addressTag, "address", true, Str(address), address);
    var l2 := l1 + (if address == "" then [] else ["address" + "=" + address]);
    assert Lines(p, 2) == l2;
    assert l1 == ["name" + "=" + name];
  }

  /** Then the age and married lines, always. */
  lemma PersonAgeMarried(name: string, address: string, age: int, married: bool)
    ensures var p := Person(name, address, age, married);
      Lines(p, 4) == Lines(p, 2) + ["age" + "=" + Decimal.FormatInt(age)]
        + ["married" + "=" + Decimal.FormatBool(married)]
  {
    var p := Person(name, address, age, married);
    SerializedScalars(name, age, married);
    var ageTag, marriedTag := AgeTag, MarriedTag;
    PlainTagParsed(ageTag);
    PlainTagParsed(marriedTag);
    PersonField(p, 2, "Age", ageTag, "age", false, Int(age), Decimal.FormatInt(age));
    PersonField(p, 3, "Married", marriedTag, "married", false, Bool(married), Decimal.FormatBool(married));
  }

  /** Every line of a Person, in field order. */
  lemma PersonText(p: Value, name: string, address: string, age: int, married: bool)
    requires p == Person(name, address, age, married)
    ensures Serialize(p) == Join(["name" + "=" + name] + (if address == "" then [] else ["address" + "=" + address])
      + ["age" + "=" + Decimal.FormatInt(age)] + ["married" + "=" + Decimal.FormatBool(married)], "\n")
  {
    assert |p.fields| == 4;
    PersonNameAddress(name, address, age, married);
    PersonAgeMarried(name, address, age, married);
  }

  lemma JoinThree(a: string, b: string, c: string, sep: string)
    ensures Join([a, b, c], sep) == a + sep + b + sep + c
  {
    assert [a, b, c][1..] == [b, c];
    assert [b, c][1..] == [c];
    assert Join([b, c], sep) == b + sep + c;
    assert a + sep + (b + sep + c) == a + sep + b + sep + c;
  }

  lemma JoinFour(a: string, b: string, c: string, d: string, sep: string)
    ensures Join([a, b, c, d], sep) == a + sep + b + sep + c + sep + d
  {
    assert [a, b, c, d][1..] == [b, c, d];
    JoinThree(b, c, d, sep);
    assert Join([a, b, c, d], sep) == a + sep + Join([b, c, d], sep);
    assert a + sep + (b + sep + c + sep + d) == a + sep + b + sep + c + sep + d;
  }

  /** A Person's lines joined, in each of its two shapes. */
  lemma JoinPersonLines(lines: seq<string>, a: string, b: string, c: string, d: string, address: string)
    requires lines == [a] + (if address == "" then [] else [b]) + [c] + [d]
    ensures address == "" ==> Join(lines, "\n") == a + "\n" + c + "\n" + d
    ensures address != "" ==> Join(lines, "\n") == a + "\n" + b + "\n" + c + "\n" + d
  {
    if address == "" {
      assert lines == [a, c, d];
      JoinThree(a, c, d, "\n");
    } else {
      assert lines == [a, b, c, d];
      JoinFour(a, b, c, d, "\n");
    }
  }

  /** The lines the test expects for the zero Person, joined. */
  lemma EmptyPersonLines()
    ensures Join(["name" + "=" + ""] + [] + ["age" + "=" + Decimal.FormatInt(0)]
      + ["married" + "=" + Decimal.FormatBool(false)], "\n") == "name=" + "\n" + "age=0" + "\n" + "married=false"
  {
    var a, c, d := "name=", "age=0", "married=false";
    assert "name" + "=" + "" == a;
    assert Decimal.FormatInt(0) == "0";
    assert "age" + "=" + "0" == c;
    assert "married" + "=" + "false" == d;
    JoinPersonLines([a] + [] + [c] + [d], a, "", c, d, "");
  }

  /** The zero Person: the empty address is omitted, the rest are zero texts. */
  lemma EmptyPerson(p: Value)
    requires p == Person("", "", 0, false)
    ensures Serialize(p) == "name=" + "\n" + "age=0" + "\n" + "married=false"
  {
    PersonText(p, "", "", 0, false);
    EmptyPersonLines();
  }

  lemma FullPersonLines()
    ensures Join(["name" + "=" + "John Doe"] + [] + ["age" + "=" + Decimal.FormatInt(30)]
      + ["married" + "=" + Decimal.FormatBool(true)], "\n")
      == "name=John Doe" + "\n" + "age=30" + "\n" + "married=true"
  {
    var a, c, d := "name=John Doe", "age=30", "married=true";
    assert "name" + "=" + "John Doe" == a;
    assert Decimal.FormatInt(30) == "30";
    assert "age" + "=" + "30" == c;
    assert "married" + "=" + "true" == d;
    JoinPersonLines([a] + [] + [c] + [d], a, "", c, d, "");
  }

  /** Every field set but the address, which is omitted. */
  lemma PersonWithFields(p: Value)
    requires p == Person("John Doe", "", 30, true)
    ensures Serialize(p) == "name=John Doe" + "\n" + "age=30" + "\n" + "married=true"
  {
    PersonText(p, "John Doe", "", 30, true);
    FullPersonLines();
  }

  lemma AddressPersonLines()
    ensures Join(["name" + "=" + "John Doe"] + ["address" + "=" + "Paris"] + ["age" + "=" + Decimal.FormatInt(30)]
      + ["married" + "=" + Decimal.FormatBool(true)], "\n")
      == "name=John Doe" + "\n" + "address=Paris" + "\n" + "age=30" + "\n" + "married=true"
  {
    var a, b, c, d := "name=John Doe", "address=Paris", "age=30", "married=true";
    assert "name" + "=" + "John Doe" == a;
    assert "address" + "=" + "Paris" == b;
    assert Decimal.FormatInt(30) == "30";
    assert "age" + "=" + "30" == c;
    assert "married" + "=" + "true" == d;
    JoinPersonLines([a] + [b] + [c] + [d], a, b, c, d, "Paris");
  }

  /** A non-empty address gets its line, between the name and the age. */
  lemma PersonWithAddress(p: Value)
    requires p == Person("John Doe", "Paris", 30, true)
    ensures Serialize(p) == "name=John Doe" + "\n" + "address=Paris" + "\n" + "age=30" + "\n" + "married=true"
  {
    PersonText(p, "John Doe", "Paris", 30, true);
    AddressPersonLines();
  }
}
