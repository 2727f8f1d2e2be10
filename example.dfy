/**
  Concrete runs of the engine: the documented example of package validate
  (v_test.go), and small structs that show nesting, renaming, several errors
  on one field and the every-comma split.
*/
module ValidateExample {

  import opened Wrappers
  import opened Strings
  import opened Validate

  /** "long": rejects strings shorter than 5 characters. */
  function Long(x: Value): Option<string>
  {
    if x.Str? && |x.s| < 5 then Some(Quote(x.s) + " is too short") else None
  }

  /** "short": rejects strings of 5 characters or more. */
  function Short(x: Value): Option<string>
  {
    if x.Str? && |x.s| >= 5 then Some(Quote(x.s) + " is too long") else None
  }

  function ExampleRegistry(): Registry
  {
    map["long" := Long, "short" := Short]
  }

  function Tagged(name: string, tag: string, value: Value): Field
  {
    Field(name, true, map[ValidateKey := tag], value)
  }

  /** The struct X of the example, with D left untagged. */
  function ExampleX(): Value
  {
    Record([
      Tagged("A", "long", Str("hello there")),
      Tagged("B", "short", Str("hi")),
      Tagged("C", "long,short", Str("help me")),
      Field("D", true, map[], Str("I am not validated"))
    ])
  }

  /** Exactly one error: C is too long, printed as in the example's expected output. */
  lemma ExampleValidate()
    ensures ValidatePrefix(ExampleRegistry(), ExampleX(), "", "")
         == [BadField("C", Rejected("\"help me\" is too long"))]
    ensures ValidatePrefix(ExampleRegistry(), ExampleX(), "", "")[0].Error()
         == "field C is invalid: \"help me\" is too long"
  {
    ExampleScenario(ExampleRegistry(), ExampleX().fields, "help me");
    ExampleMessage();
  }

  lemma ExampleScenario(v: Registry, fs: seq<Field>, c: string)
    requires v == ExampleRegistry() && fs == ExampleX().fields && c == "help me"
    ensures ValidatePrefix(v, Record(fs), "", "") == [BadField("C", Rejected(Quote(c) + " is too long"))]
  {
    ExampleFieldsAB(v, fs);
    ExampleFieldC(v, fs, c);
    ExampleFieldD(v, fs);
    OnlyThirdFieldFails(v, fs, BadField("C", Rejected(Quote(c) + " is too long")));
  }

  lemma ExampleFieldD(v: Registry, fs: seq<Field>)
    requires fs == ExampleX().fields
    ensures FieldErrs(v, fs[3], "", "") == []
  {
  }

  lemma OnlyThirdFieldFails(v: Registry, fs: seq<Field>, e: BadField)
    requires |fs| == 4
    requires FieldErrs(v, fs[0], "", "") == [] && FieldErrs(v, fs[1], "", "") == []
    requires FieldErrs(v, fs[2], "", "") == [e] && FieldErrs(v, fs[3], "", "") == []
    ensures ValidatePrefix(v, Record(fs), "", "") == [e]
  {
    FourFields(v, fs[0], fs[1], fs[2], fs[3], "", "");
    assert fs == [fs[0], fs[1], fs[2], fs[3]];
  }

  lemma ExampleFieldsAB(v: Registry, fs: seq<Field>)
    requires v == ExampleRegistry() && fs == ExampleX().fields
    ensures FieldErrs(v, fs[0], "", "") == [] && FieldErrs(v, fs[1], "", "") == []
  {
    OneEntryField(v, fs[0], "long", "", "");
    OneEntryField(v, fs[1], "short", "", "");
  }

  lemma ExampleFieldC(v: Registry, fs: seq<Field>, c: string)
    requires v == ExampleRegistry() && fs == ExampleX().fields && c == "help me"
    ensures FieldErrs(v, fs[2], "", "") == [BadField("C", Rejected(Quote(c) + " is too long"))]
  {
    LongShortTag();
    TwoEntryField(v, fs[2], "long", "short", "", "");
  }

  lemma LongShortTag()
    ensures "long,short" == "long" + [Comma] + "short"
  {
  }

  /** The text of C's error, as the example prints it. */
  lemma ExampleMessage()
    ensures Quote("help me") + " is too long" == "\"help me\" is too long"
    ensures BadField("C", Rejected("\"help me\" is too long")).Error() == "field C is invalid: \"help me\" is too long"
  {
    QuoteHelpMe();
    TooLongText();
    ErrorTextC();
  }

  lemma QuoteHelpMe()
    ensures Quote("help me") == "\"help me\""
  {
    QuotePlain("help me");
  }

  lemma TooLongText()
    ensures "\"help me\"" + " is too long" == "\"help me\" is too long"
  {
  }

  lemma ErrorTextC()
    ensures BadField("C", Rejected("\"help me\" is too long")).Error() == "field C is invalid: \"help me\" is too long"
  {
  }

  /** A field whose validate tag is a single entry `vt`. */
  lemma OneEntryField(v: Registry, f: Field, vt: string, nameTag: string, prefix: string)
    requires f.accessible && TagGet(f.tags, ValidateKey) == vt && vt != "" && Comma !in vt
    ensures FieldErrs(v, f, nameTag, prefix) == EntryErrs(v, f, vt, nameTag, prefix)
  {
    SplitPiece(vt);
    assert !Skipped(f);
    assert FieldErrs(v, f, nameTag, prefix) == EntriesErrs(v, f, [vt], nameTag, prefix);
    assert [vt][1..] == [];
    assert EntriesErrs(v, f, [vt], nameTag, prefix)
        == EntryErrs(v, f, vt, nameTag, prefix) + EntriesErrs(v, f, [], nameTag, prefix);
  }

  /** A field whose validate tag is the two entries `a,b`. */
  lemma TwoEntryField(v: Registry, f: Field, a: string, b: string, nameTag: string, prefix: string)
    requires f.accessible && TagGet(f.tags, ValidateKey) == a + [Comma] + b
    requires Comma !in a && Comma !in b
    ensures FieldErrs(v, f, nameTag, prefix)
         == EntryErrs(v, f, a, nameTag, prefix) + EntryErrs(v, f, b, nameTag, prefix)
  {
    SplitPieceThenComma(a, b);
    SplitPiece(b);
    assert [a] + [b] == [a, b];
    assert !Skipped(f);
    assert FieldErrs(v, f, nameTag, prefix) == EntriesErrs(v, f, [a, b], nameTag, prefix);
    assert [a, b][1..] == [b];
    assert [b][1..] == [];
    assert EntriesErrs(v, f, [a, b], nameTag, prefix)
        == EntryErrs(v, f, a, nameTag, prefix) + EntriesErrs(v, f, [b], nameTag, prefix);
    assert EntriesErrs(v, f, [b], nameTag, prefix)
        == EntryErrs(v, f, b, nameTag, prefix) + EntriesErrs(v, f, [], nameTag, prefix);
  }

  lemma OneField(v: Registry, f: Field, nameTag: string, prefix: string)
    ensures FieldsErrs(v, [f], nameTag, prefix) == FieldErrs(v, f, nameTag, prefix)
  {
    assert [f][1..] == [];
  }

  lemma FourFields(v: Registry, f0: Field, f1: Field, f2: Field, f3: Field, nameTag: string, prefix: string)
    ensures FieldsErrs(v, [f0, f1, f2, f3], nameTag, prefix)
         == FieldErrs(v, f0, nameTag, prefix) + FieldErrs(v, f1, nameTag, prefix)
          + FieldErrs(v, f2, nameTag, prefix) + FieldErrs(v, f3, nameTag, prefix)
  {
    assert [f0, f1, f2, f3] == [f0] + [f1] + [f2] + [f3];
    FieldsErrsAppend(v, [f0] + [f1] + [f2], [f3], nameTag, prefix);
    FieldsErrsAppend(v, [f0] + [f1], [f2], nameTag, prefix);
    FieldsErrsAppend(v, [f0], [f1], nameTag, prefix);
    OneField(v, f0, nameTag, prefix);
    OneField(v, f1, nameTag, prefix);
    OneField(v, f2, nameTag, prefix);
    OneField(v, f3, nameTag, prefix);
  }

  function NonZero(x: Value): Option<string>
  {
    if x.Int? && x.n == 0 then Some("is zero") else None
  }

  function Odd(x: Value): Option<string>
  {
    if x.Int? && x.n % 2 == 0 then Some("is even") else None
  }

  /** A field tagged "nonzero,odd" holding 0 fails both, in tag order. */
  lemma TwoFailuresInTagOrder()
    ensures ValidatePrefix(map["nonzero" := NonZero, "odd" := Odd], Record([Tagged("A", "nonzero,odd", Int(0))]), "", "")
         == [BadField("A", Rejected("is zero")), BadField("A", Rejected("is even"))]
  {
    TwoFailures(map["nonzero" := NonZero, "odd" := Odd], Tagged("A", "nonzero,odd", Int(0)));
  }

  lemma TwoFailures(v: Registry, f: Field)
    requires v == map["nonzero" := NonZero, "odd" := Odd] && f == Tagged("A", "nonzero,odd", Int(0))
    ensures FieldsErrs(v, [f], "", "") == [BadField("A", Rejected("is zero")), BadField("A", Rejected("is even"))]
  {
    NonZeroOddTag();
    TwoEntryField(v, f, "nonzero", "odd", "", "");
    OneField(v, f, "", "");
  }

  lemma NonZeroOddTag()
    ensures "nonzero,odd" == "nonzero" + [Comma] + "odd"
  {
  }

  /**
    A nested struct reached through "struct" reports its fields under the
    outer field's name; with nameTag "json" both levels use the json names,
    and a field without that tag is reported under an empty name.
  */
  lemma NestedNames()
    ensures ValidatePrefix(map["nonzero" := NonZero], Outer(), "", "")
         == [BadField("Inner.X", Rejected("is zero"))]
    ensures ValidatePrefix(map["nonzero" := NonZero], Outer(), "json", "")
         == [BadField("inner.x", Rejected("is zero"))]
    ensures ValidatePrefix(map["nonzero" := NonZero], Ptr(Record([Tagged("X", "nonzero", Int(0))])), "json", "")
         == [BadField("", Rejected("is zero"))]
  {
    NestedUnder(map["nonzero" := NonZero], Outer().fields, "", "Inner", "X");
    assert "Inner" + "." + "X" == "Inner.X";
    NestedUnder(map["nonzero" := NonZero], Outer().fields, "json", "inner", "x");
    assert "inner" + "." + "x" == "inner.x";
    MissingNameTag(map["nonzero" := NonZero], Tagged("X", "nonzero", Int(0)));
  }

  /** Validating Outer() under `nameTag`, where the outer and inner fields are named `outer` and `inner`. */
  lemma NestedUnder(v: Registry, fs: seq<Field>, nameTag: string, outer: string, inner: string)
    requires v == map["nonzero" := NonZero] && fs == Outer().fields
    requires nameTag == "" ==> outer == "Inner" && inner == "X"
    requires nameTag == "json" ==> outer == "inner" && inner == "x"
    requires nameTag == "" || nameTag == "json"
    ensures ValidatePrefix(v, Record(fs), nameTag, "") == [BadField(outer + "." + inner, Rejected("is zero"))]
  {
    var fo := fs[0];
    NestedInner(v, fo.value.fields[0], nameTag, outer, inner);
    NestedOuter(v, fo, nameTag, outer, [BadField(outer + "." + inner, Rejected("is zero"))]);
    OneField(v, fo, nameTag, "");
  }

  /** The inner field X, validated under the outer field's name. */
  lemma NestedInner(v: Registry, fx: Field, nameTag: string, outer: string, inner: string)
    requires v == map["nonzero" := NonZero] && fx == Outer().fields[0].value.fields[0]
    requires nameTag == "" ==> outer == "Inner" && inner == "X"
    requires nameTag == "json" ==> outer == "inner" && inner == "x"
    requires nameTag == "" || nameTag == "json"
    ensures ValidatePrefix(v, Record([fx]), nameTag, outer) == [BadField(outer + "." + inner, Rejected("is zero"))]
  {
    OneEntryField(v, fx, "nonzero", nameTag, outer);
    assert ResolveName(fx, nameTag, outer) == outer + "." + inner;
    OneField(v, fx, nameTag, outer);
  }

  /** The outer field, tagged "struct", reports what its value reports under its own name. */
  lemma NestedOuter(v: Registry, fo: Field, nameTag: string, outer: string, nested: seq<BadField>)
    requires fo == Outer().fields[0]
    requires nameTag == "" ==> outer == "Inner"
    requires nameTag == "json" ==> outer == "inner"
    requires nameTag == "" || nameTag == "json"
    requires ValidatePrefix(v, fo.value, nameTag, outer) == nested
    ensures FieldErrs(v, fo, nameTag, "") == nested
  {
    OneEntryField(v, fo, StructEntry, nameTag, "");
    assert ResolveName(fo, nameTag, "") == outer;
  }

  lemma MissingNameTag(v: Registry, f: Field)
    requires v == map["nonzero" := NonZero] && f == Tagged("X", "nonzero", Int(0))
    ensures ValidatePrefix(v, Ptr(Record([f])), "json", "") == [BadField("", Rejected("is zero"))]
  {
    OneEntryField(v, f, "nonzero", "json", "");
    assert ResolveName(f, "json", "") == "";
    OneField(v, f, "json", "");
  }

  /** struct { Inner struct { X int `json:"x" validate:"nonzero"` } `json:"inner" validate:"struct"` }, X == 0. */
  function Outer(): Value
  {
    Record([
      Field("Inner", true, map[ValidateKey := "struct", "json" := "inner"],
        Record([Field("X", true, map[ValidateKey := "nonzero", "json" := "x"], Int(0))]))
    ])
  }

  /** The split is on every comma: "long," has a second, empty entry, reported as undefined. */
  lemma TrailingComma()
    ensures ValidatePrefix(ExampleRegistry(), Record([Tagged("A", "long,", Str("hello there"))]), "", "")
         == [BadField("A", UndefinedValidator(""))]
    ensures BadField("A", UndefinedValidator("")).Error() == "field A is invalid: undefined validator: \"\""
  {
    TrailingCommaField(ExampleRegistry(), Tagged("A", "long,", Str("hello there")));
    UndefinedEmptyText();
  }

  lemma TrailingCommaField(v: Registry, f: Field)
    requires v == ExampleRegistry() && f == Tagged("A", "long,", Str("hello there"))
    ensures FieldsErrs(v, [f], "", "") == [BadField("A", UndefinedValidator(""))]
  {
    assert "long," == "long" + [Comma] + "";
    TwoEntryField(v, f, "long", "", "", "");
    assert EntryErrs(v, f, "long", "", "") == [];
    OneField(v, f, "", "");
  }

  lemma UndefinedEmptyText()
    ensures BadField("A", UndefinedValidator("")).Error() == "field A is invalid: undefined validator: \"\""
  {
    UndefinedEmptyMessage();
    UndefinedEmptyConcat();
  }

  lemma UndefinedEmptyConcat()
    ensures "field " + "A" + " is invalid: " + "undefined validator: \"\"" == "field A is invalid: undefined validator: \"\""
  {
  }

  lemma UndefinedEmptyMessage()
    ensures UndefinedValidator("").Message() == "undefined validator: \"\""
  {
    QuotePlain("");
  }

  /** A field that reflection cannot interface is skipped even though it is tagged. */
  lemma InaccessibleFieldSkipped()
    ensures ValidatePrefix(ExampleRegistry(), Record([Field("a", false, map[ValidateKey := "long"], Str("hi"))]), "", "") == []
  {
    OneField(ExampleRegistry(), Field("a", false, map[ValidateKey := "long"], Str("hi")), "", "");
  }
}
