/**
  The struct-field validation engine of package validate (v.go).

  Go's reflection is replaced by an explicit description of a value: a scalar,
  a pointer, or a record whose fields carry their declared name, whether
  reflection may interface them, their struct tag (already parsed into a map
  from key to value) and their value. The registry `V` maps validator names to
  validator functions; a validator returns Some(message) when it rejects a
  value and None when it accepts it.

  ValidatePrefix and its helpers are the specification of the traversal;
  the method ValidateAndTagPrefix is the traversal as v.go writes it (a loop
  over the fields, a loop over the split tag entries, an error slice grown by
  appending) and is proved to compute exactly ValidatePrefix.
*/
module Validate {

  import opened Wrappers
  import opened Strings

  datatype Value =
    | Str(s: string)
    | Int(n: int)
    | Ptr(target: Value)
    | Record(fields: seq<Field>)

  /** One struct field as reflection sees it. */
  datatype Field = Field(name: string, accessible: bool, tags: map<string, string>, value: Value)

  /** A user validator: Some(message) is the error it returns, None means the value is valid. */
  type Validator = Value -> Option<string>

  /** The registry `V`: validator names to validators. */
  type Registry = map<string, Validator>

  /** The reserved tag entry that asks for recursive validation. */
  const StructEntry: string := "struct"

  /** The tag key that holds a field's validator list. */
  const ValidateKey: string := "validate"

  /** The underlying error of a BadField. */
  datatype Failure =
    | UndefinedValidator(validator: string)
    | Rejected(message: string)
  {
    /** The text of the error: fmt.Errorf("undefined validator: %q", vt), or the validator's own message. */
    function Message(): string
    {
      match this
      case UndefinedValidator(vt) => "undefined validator: " + Quote(vt)
      case Rejected(m) => m
    }
  }

  /** BadField: the reported field name and the error found there. */
  datatype BadField = BadField(field: string, err: Failure)
  {
    /** fmt.Sprintf("field %s is invalid: %v", Field, Err). */
    function Error(): string
    {
      "field " + field + " is invalid: " + err.Message()
    }
  }

  /** The text of a BadField determines its field name when the errors agree, and its error text when the names agree. */
  lemma ErrorTextDetermines(b1: BadField, b2: BadField)
    requires b1.Error() == b2.Error()
    ensures b1.err.Message() == b2.err.Message() ==> b1.field == b2.field
    ensures b1.field == b2.field ==> b1.err.Message() == b2.err.Message()
  {
    var t := b1.Error();
    if b1.err.Message() == b2.err.Message() {
      var n := |"field "| + |b1.field|;
      assert |b1.field| == |b2.field|;
      assert b1.field == t[|"field "|..n] == b2.field;
    }
    if b1.field == b2.field {
      var n := |"field "| + |b1.field| + |" is invalid: "|;
      assert b1.err.Message() == t[n..] == b2.err.Message();
    }
  }

  /** The "undefined validator" message names the missing entry unambiguously: its quoted part reads back as the entry. */
  lemma UndefinedMessageNamesEntry(vt: string)
    ensures var m := UndefinedValidator(vt).Message();
      |m| > |"undefined validator: "| && Unquote(m[|"undefined validator: "|..]) == Some(vt)
  {
    var m := UndefinedValidator(vt).Message();
    assert m[|"undefined validator: "|..] == Quote(vt);
    UnquoteQuote(vt);
  }

  /** reflect.StructTag.Get: the value under `key`, or "" when the key is absent. */
  function TagGet(tags: map<string, string>, key: string): string
  {
    if key in tags then tags[key] else ""
  }

  /** At most one pointer is followed before the kind is inspected. */
  function Deref(s: Value): Value
  {
    if s.Ptr? then s.target else s
  }

  /** The name under which errors of field `f` are reported. */
  function ResolveName(f: Field, nameTag: string, prefix: string): string
  {
    var base := if nameTag != "" then TagGet(f.tags, nameTag) else f.name;
    if |prefix| > 0 then prefix + "." + base else base
  }

  /** Fields that reflection cannot interface, and fields without a validate tag, are skipped. */
  predicate Skipped(f: Field)
  {
    !f.accessible || TagGet(f.tags, ValidateKey) == ""
  }

  // ---------------------------------------------------------------------------
  // Specification of validateAndTagPrefix

  /** The errors of validating `s` with errors reported under `prefix`. */
  function ValidatePrefix(v: Registry, s: Value, nameTag: string, prefix: string): seq<BadField>
    decreases s, 3, 0
  {
    var d := Deref(s);
    if d.Record? then FieldsErrs(v, d.fields, nameTag, prefix) else []
  }

  /** The errors of a run of fields, in declaration order. */
  function FieldsErrs(v: Registry, fs: seq<Field>, nameTag: string, prefix: string): seq<BadField>
    decreases fs, 2, 0
  {
    if fs == [] then []
    else FieldErrs(v, fs[0], nameTag, prefix) + FieldsErrs(v, fs[1..], nameTag, prefix)
  }

  /** The errors of one field: its tag entries, in order. */
  function FieldErrs(v: Registry, f: Field, nameTag: string, prefix: string): seq<BadField>
    decreases f, 1, 0
  {
    if Skipped(f) then []
    else EntriesErrs(v, f, Split(TagGet(f.tags, ValidateKey)), nameTag, prefix)
  }

  /** The errors of a run of tag entries of field `f`, in order. */
  function EntriesErrs(v: Registry, f: Field, vts: seq<string>, nameTag: string, prefix: string): seq<BadField>
    decreases f, 0, |vts|
  {
    if vts == [] then []
    else EntryErrs(v, f, vts[0], nameTag, prefix) + EntriesErrs(v, f, vts[1..], nameTag, prefix)
  }

  /** The errors of one tag entry `vt` of field `f`. */
  function EntryErrs(v: Registry, f: Field, vt: string, nameTag: string, prefix: string): seq<BadField>
    decreases f, 0, 0
  {
    var name := ResolveName(f, nameTag, prefix);
    if vt == StructEntry then ValidatePrefix(v, f.value, nameTag, name)
    else if vt !in v then [BadField(name, UndefinedValidator(vt))]
    else
      match v[vt](f.value)
      case None => []
      case Some(m) => [BadField(name, Rejected(m))]
  }

  /** The errors of consecutive runs of fields are the concatenation of their errors. */
  lemma {:induction false} FieldsErrsAppend(v: Registry, a: seq<Field>, b: seq<Field>, nameTag: string, prefix: string)
    ensures FieldsErrs(v, a + b, nameTag, prefix) == FieldsErrs(v, a, nameTag, prefix) + FieldsErrs(v, b, nameTag, prefix)
  {
    if a == [] {
      assert a + b == b;
    } else {
      assert (a + b)[0] == a[0];
      assert (a + b)[1..] == a[1..] + b;
      FieldsErrsAppend(v, a[1..], b, nameTag, prefix);
      assert (FieldErrs(v, a[0], nameTag, prefix) + FieldsErrs(v, a[1..], nameTag, prefix)) + FieldsErrs(v, b, nameTag, prefix)
          == FieldErrs(v, a[0], nameTag, prefix) + (FieldsErrs(v, a[1..], nameTag, prefix) + FieldsErrs(v, b, nameTag, prefix));
    }
  }

  /** The errors of consecutive runs of tag entries are the concatenation of their errors. */
  lemma {:induction false} EntriesErrsAppend(v: Registry, f: Field, a: seq<string>, b: seq<string>, nameTag: string, prefix: string)
    ensures EntriesErrs(v, f, a + b, nameTag, prefix)
         == EntriesErrs(v, f, a, nameTag, prefix) + EntriesErrs(v, f, b, nameTag, prefix)
  {
    if a == [] {
      assert a + b == b;
    } else {
      assert (a + b)[0] == a[0];
      assert (a + b)[1..] == a[1..] + b;
      EntriesErrsAppend(v, f, a[1..], b, nameTag, prefix);
      assert (EntryErrs(v, f, a[0], nameTag, prefix) + EntriesErrs(v, f, a[1..], nameTag, prefix)) + EntriesErrs(v, f, b, nameTag, prefix)
          == EntryErrs(v, f, a[0], nameTag, prefix) + (EntriesErrs(v, f, a[1..], nameTag, prefix) + EntriesErrs(v, f, b, nameTag, prefix));
    }
  }

  /** One more field processed: its errors follow those of the fields before it. */
  lemma FieldsErrsSnoc(v: Registry, fs: seq<Field>, i: nat, nameTag: string, prefix: string)
    requires i < |fs|
    ensures FieldsErrs(v, fs[..i + 1], nameTag, prefix)
         == FieldsErrs(v, fs[..i], nameTag, prefix) + FieldErrs(v, fs[i], nameTag, prefix)
  {
    assert fs[..i + 1] == fs[..i] + [fs[i]];
    FieldsErrsAppend(v, fs[..i], [fs[i]], nameTag, prefix);
    assert [fs[i]][1..] == [];
  }

  /** One more entry processed: its errors follow those of the entries before it. */
  lemma EntriesErrsSnoc(v: Registry, f: Field, vts: seq<string>, j: nat, nameTag: string, prefix: string)
    requires j < |vts|
    ensures EntriesErrs(v, f, vts[..j + 1], nameTag, prefix)
         == EntriesErrs(v, f, vts[..j], nameTag, prefix) + EntryErrs(v, f, vts[j], nameTag, prefix)
  {
    assert vts[..j + 1] == vts[..j] + [vts[j]];
    EntriesErrsAppend(v, f, vts[..j], [vts[j]], nameTag, prefix);
    assert [vts[j]][1..] == [];
  }

  // ---------------------------------------------------------------------------
  // The engine, as v.go runs it

  /**
    v.validateAndTagPrefix(s, nameTag, prefix): the loop over the fields
    (v.go:88-148). The loop over one field's tag entries is ValidateEntries.
  */
  method ValidateAndTagPrefix(v: Registry, s: Value, nameTag: string, prefix: string)
    returns (errs: seq<BadField>)
    ensures errs == ValidatePrefix(v, s, nameTag, prefix)
    decreases s, 1
  {
    var val := s;
    if val.Ptr? {
      val := val.target;
    }
    if !val.Record? {
      return [];
    }
    var fields := val.fields;
    errs := [];
    var i := 0;
    while i < |fields|
      invariant 0 <= i <= |fields|
      invariant errs == FieldsErrs(v, fields[..i], nameTag, prefix)
    {
      var f := fields[i];
      FieldsErrsSnoc(v, fields, i, nameTag, prefix);
      var tag := TagGet(f.tags, ValidateKey);
      if f.accessible && tag != "" {
        var vts := Split(tag);
        var fieldErrs := ValidateEntries(v, f, vts, nameTag, prefix);
        errs := errs + fieldErrs;
      } else {
        assert FieldErrs(v, f, nameTag, prefix) == [];
      }
      i := i + 1;
    }
    assert fields[..i] == fields;
  }

  /**
    The loop over the entries `vts` of field `f` (v.go:115-144): resolves the
    reported name for each entry, recurses on "struct", reports undefined
    validators and collects the errors of the others.
  */
  method ValidateEntries(v: Registry, f: Field, vts: seq<string>, nameTag: string, prefix: string)
    returns (errs: seq<BadField>)
    ensures errs == EntriesErrs(v, f, vts, nameTag, prefix)
    decreases f, 0
  {
    var fv := f.value;
    errs := [];
    var j := 0;
    while j < |vts|
      invariant 0 <= j <= |vts|
      invariant errs == EntriesErrs(v, f, vts[..j], nameTag, prefix)
    {
      var vt := vts[j];
      EntriesErrsSnoc(v, f, vts, j, nameTag, prefix);
      var name := f.name;
      if nameTag != "" {
        name := TagGet(f.tags, nameTag);
      }
      if |prefix| > 0 {
        name := prefix + "." + name;
      }
      assert name == ResolveName(f, nameTag, prefix);
      ghost var done := errs;
      ghost var entryErrs := EntryErrs(v, f, vt, nameTag, prefix);
      if vt == StructEntry {
        var errs2 := ValidateAndTagPrefix(v, fv, nameTag, name);
        if |errs2| > 0 {
          errs := errs + errs2;
        }
        assert errs == done + errs2;
      } else if vt !in v {
        errs := errs + [BadField(name, UndefinedValidator(vt))];
      } else {
        var vf := v[vt];
        var err := vf(fv);
        if err.Some? {
          errs := errs + [BadField(name, Rejected(err.value))];
        } else {
          assert entryErrs == [];
        }
      }
      assert errs == done + entryErrs;
      j := j + 1;
    }
    assert vts[..j] == vts;
  }

  /** v.ValidateAndTag(s, nameTag): no prefix. */
  method ValidateAndTag(v: Registry, s: Value, nameTag: string) returns (errs: seq<BadField>)
    ensures errs == ValidatePrefix(v, s, nameTag, "")
  {
    errs := ValidateAndTagPrefix(v, s, nameTag, "");
  }

  /** v.Validate(s): declared field names, no prefix. */
  method Validate(v: Registry, s: Value) returns (errs: seq<BadField>)
    ensures errs == ValidatePrefix(v, s, "", "")
  {
    errs := ValidateAndTag(v, s, "");
  }

  // ---------------------------------------------------------------------------
  // Properties of the traversal

  /** A value that is not a struct after at most one dereference has no errors, whatever the registry. */
  lemma NotAStructIsValid(v: Registry, s: Value, nameTag: string, prefix: string)
    requires !Deref(s).Record?
    ensures ValidatePrefix(v, s, nameTag, prefix) == []
  {
  }

  /** Only one pointer is followed: a pointer to a pointer to a struct is not inspected. */
  lemma PointerToPointerIsValid(v: Registry, fs: seq<Field>, nameTag: string, prefix: string)
    ensures ValidatePrefix(v, Ptr(Record(fs)), nameTag, prefix) == FieldsErrs(v, fs, nameTag, prefix)
    ensures ValidatePrefix(v, Ptr(Ptr(Record(fs))), nameTag, prefix) == []
  {
  }

  /**
    A skipped field (not interfaceable, or with an empty validate tag)
    contributes nothing: removing it, or giving it any other value, leaves the
    result unchanged.
  */
  lemma SkippedFieldContributesNothing(v: Registry, fs: seq<Field>, i: nat, x: Value, nameTag: string, prefix: string)
    requires i < |fs| && Skipped(fs[i])
    ensures ValidatePrefix(v, Record(fs), nameTag, prefix)
         == ValidatePrefix(v, Record(fs[..i] + fs[i + 1..]), nameTag, prefix)
    ensures ValidatePrefix(v, Record(fs[i := fs[i].(value := x)]), nameTag, prefix)
         == ValidatePrefix(v, Record(fs), nameTag, prefix)
  {
    var gs := fs[i := fs[i].(value := x)];
    assert fs == fs[..i] + [fs[i]] + fs[i + 1..];
    assert gs == fs[..i] + [gs[i]] + fs[i + 1..];
    FieldsErrsAround(v, fs[..i], fs[i], fs[i + 1..], nameTag, prefix);
    FieldsErrsAround(v, fs[..i], gs[i], fs[i + 1..], nameTag, prefix);
    FieldsErrsAppend(v, fs[..i], fs[i + 1..], nameTag, prefix);
  }

  /** The errors of the fields around a field `f` that is skipped are those of the fields around it. */
  lemma FieldsErrsAround(v: Registry, a: seq<Field>, f: Field, b: seq<Field>, nameTag: string, prefix: string)
    requires Skipped(f)
    ensures FieldsErrs(v, a + [f] + b, nameTag, prefix) == FieldsErrs(v, a, nameTag, prefix) + FieldsErrs(v, b, nameTag, prefix)
  {
    assert [f][1..] == [];
    assert FieldsErrs(v, [f], nameTag, prefix) == FieldErrs(v, f, nameTag, prefix) == [];
    FieldsErrsAppend(v, a, [f], nameTag, prefix);
    assert FieldsErrs(v, a + [f], nameTag, prefix) == FieldsErrs(v, a, nameTag, prefix);
    FieldsErrsAppend(v, a + [f], b, nameTag, prefix);
  }

  /** A struct whose fields carry no validate tag at all is valid. */
  lemma {:induction false} UntaggedFieldsAreValid(v: Registry, fs: seq<Field>, nameTag: string, prefix: string)
    requires forall k :: 0 <= k < |fs| ==> ValidateKey !in fs[k].tags
    ensures FieldsErrs(v, fs, nameTag, prefix) == []
  {
    if fs != [] {
      UntaggedFieldsAreValid(v, fs[1..], nameTag, prefix);
    }
  }

  /**
    Errors follow the order of the fields: the errors of a struct whose fields
    are `a` followed by `b` are those of `a` followed by those of `b`.
  */
  lemma FieldOrder(v: Registry, a: seq<Field>, b: seq<Field>, nameTag: string, prefix: string)
    ensures ValidatePrefix(v, Record(a + b), nameTag, prefix)
         == ValidatePrefix(v, Record(a), nameTag, prefix) + ValidatePrefix(v, Record(b), nameTag, prefix)
  {
    FieldsErrsAppend(v, a, b, nameTag, prefix);
  }

  /**
    Within a field, errors follow the order of the tag entries: tagging a
    field `t1,t2` reports the errors of `t1` and then those of `t2`. (When
    `nameTag` is "validate" the tag is also the reported name, hence the
    second requirement.)
  */
  lemma EntryOrder(v: Registry, f: Field, t1: string, t2: string, nameTag: string, prefix: string)
    requires t1 != "" && t2 != "" && f.accessible
    requires nameTag != ValidateKey
    ensures FieldErrs(v, f.(tags := f.tags[ValidateKey := t1 + [Comma] + t2]), nameTag, prefix)
         == FieldErrs(v, f.(tags := f.tags[ValidateKey := t1]), nameTag, prefix)
          + FieldErrs(v, f.(tags := f.tags[ValidateKey := t2]), nameTag, prefix)
  {
    var f12 := f.(tags := f.tags[ValidateKey := t1 + [Comma] + t2]);
    var f1 := f.(tags := f.tags[ValidateKey := t1]);
    var f2 := f.(tags := f.tags[ValidateKey := t2]);
    SplitConcat(t1, t2);
    EntriesErrsAppend(v, f12, Split(t1), Split(t2), nameTag, prefix);
    EntriesSameName(v, f12, f1, Split(t1), nameTag, prefix);
    EntriesSameName(v, f12, f2, Split(t2), nameTag, prefix);
  }

  /** Two fields with the same value and the same reported name give the same entry errors. */
  lemma {:induction false} EntriesSameName(v: Registry, f: Field, g: Field, vts: seq<string>, nameTag: string, prefix: string)
    requires f.value == g.value
    requires ResolveName(f, nameTag, prefix) == ResolveName(g, nameTag, prefix)
    ensures EntriesErrs(v, f, vts, nameTag, prefix) == EntriesErrs(v, g, vts, nameTag, prefix)
  {
    if vts != [] {
      EntriesSameName(v, f, g, vts[1..], nameTag, prefix);
    }
  }

  /** Each entry other than "struct" contributes at most one error. */
  lemma {:induction false} EntriesErrorBound(v: Registry, f: Field, vts: seq<string>, nameTag: string, prefix: string)
    requires forall k :: 0 <= k < |vts| ==> vts[k] != StructEntry
    ensures |EntriesErrs(v, f, vts, nameTag, prefix)| <= |vts|
  {
    if vts != [] {
      EntriesErrorBound(v, f, vts[1..], nameTag, prefix);
    }
  }

  /**
    An entry missing from the registry gives exactly one "undefined
    validator" error, and processing goes on: when no entry is registered,
    every entry is reported, in order.
  */
  lemma {:induction false} UndefinedEntriesReported(v: Registry, f: Field, vts: seq<string>, nameTag: string, prefix: string)
    requires forall k :: 0 <= k < |vts| ==> vts[k] != StructEntry && vts[k] !in v
    ensures var errs := EntriesErrs(v, f, vts, nameTag, prefix);
      && |errs| == |vts|
      && forall k :: 0 <= k < |vts| ==>
           errs[k] == BadField(ResolveName(f, nameTag, prefix), UndefinedValidator(vts[k]))
           && errs[k].err.Message() == "undefined validator: " + Quote(vts[k])
  {
    if vts != [] {
      UndefinedEntriesReported(v, f, vts[1..], nameTag, prefix);
    }
  }

  /** Entries whose validators all accept the field's value contribute nothing. */
  lemma {:induction false} PassingEntriesSilent(v: Registry, f: Field, vts: seq<string>, nameTag: string, prefix: string)
    requires forall k :: 0 <= k < |vts| ==> vts[k] != StructEntry && vts[k] in v && v[vts[k]](f.value).None?
    ensures EntriesErrs(v, f, vts, nameTag, prefix) == []
  {
    if vts != [] {
      PassingEntriesSilent(v, f, vts[1..], nameTag, prefix);
    }
  }

  /** A registered validator that rejects the value gives one error carrying its message, under the field's name. */
  lemma RejectedEntry(v: Registry, f: Field, vt: string, nameTag: string, prefix: string, m: string)
    requires vt != StructEntry && vt in v && v[vt](f.value) == Some(m)
    ensures EntryErrs(v, f, vt, nameTag, prefix) == [BadField(ResolveName(f, nameTag, prefix), Rejected(m))]
  {
  }

  /**
    The entry "struct" appends exactly the errors of the field's value,
    reported under the field's resolved name; a field tagged "struct" whose
    value is not a struct contributes nothing.
  */
  lemma StructEntryRecurses(v: Registry, f: Field, nameTag: string, prefix: string)
    ensures EntryErrs(v, f, StructEntry, nameTag, prefix)
         == ValidatePrefix(v, f.value, nameTag, ResolveName(f, nameTag, prefix))
    ensures !Deref(f.value).Record? ==> EntryErrs(v, f, StructEntry, nameTag, prefix) == []
  {
  }

  /** The reported name: the field name, or its `nameTag` tag ("" when absent), after `prefix + "."`. */
  lemma ReportedName(f: Field, nameTag: string, prefix: string)
    ensures nameTag == "" && prefix == "" ==> ResolveName(f, nameTag, prefix) == f.name
    ensures nameTag == "" && prefix != "" ==> ResolveName(f, nameTag, prefix) == prefix + "." + f.name
    ensures nameTag != "" && nameTag in f.tags && prefix == "" ==> ResolveName(f, nameTag, prefix) == f.tags[nameTag]
    ensures nameTag != "" && nameTag in f.tags && prefix != ""
        ==> ResolveName(f, nameTag, prefix) == prefix + "." + f.tags[nameTag]
    ensures nameTag != "" && nameTag !in f.tags && prefix == "" ==> ResolveName(f, nameTag, prefix) == ""
    ensures nameTag != "" && nameTag !in f.tags && prefix != "" ==> ResolveName(f, nameTag, prefix) == prefix + "."
  {
  }

  // "struct" is never looked up: registries that differ only at "struct" give the same errors.

  ghost predicate AgreeOffStruct(v: Registry, w: Registry)
  {
    v - {StructEntry} == w - {StructEntry}
  }

  lemma {:induction false} StructNeverLookedUp(v: Registry, w: Registry, s: Value, nameTag: string, prefix: string)
    requires AgreeOffStruct(v, w)
    ensures ValidatePrefix(v, s, nameTag, prefix) == ValidatePrefix(w, s, nameTag, prefix)
    decreases s, 1
  {
    var d := Deref(s);
    if d.Record? {
      FieldsStructNeverLookedUp(v, w, d.fields, nameTag, prefix);
    }
  }

  lemma {:induction false} FieldsStructNeverLookedUp(v: Registry, w: Registry, fs: seq<Field>, nameTag: string, prefix: string)
    requires AgreeOffStruct(v, w)
    ensures FieldsErrs(v, fs, nameTag, prefix) == FieldsErrs(w, fs, nameTag, prefix)
    decreases fs, 0
  {
    if fs != [] {
      if !Skipped(fs[0]) {
        EntriesStructNeverLookedUp(v, w, fs[0], Split(TagGet(fs[0].tags, ValidateKey)), nameTag, prefix);
      }
      FieldsStructNeverLookedUp(v, w, fs[1..], nameTag, prefix);
    }
  }

  lemma {:induction false} EntriesStructNeverLookedUp(v: Registry, w: Registry, f: Field, vts: seq<string>, nameTag: string, prefix: string)
    requires AgreeOffStruct(v, w)
    ensures EntriesErrs(v, f, vts, nameTag, prefix) == EntriesErrs(w, f, vts, nameTag, prefix)
    decreases f, |vts|
  {
    if vts != [] {
      var vt := vts[0];
      if vt == StructEntry {
        StructNeverLookedUp(v, w, f.value, nameTag, ResolveName(f, nameTag, prefix));
      } else {
        assert vt in v - {StructEntry} <==> vt in w - {StructEntry};
        if vt in v {
          assert v[vt] == (v - {StructEntry})[vt] == w[vt];
        }
      }
      EntriesStructNeverLookedUp(v, w, f, vts[1..], nameTag, prefix);
    }
  }

  // Errors found below a non-empty prefix are all reported under "prefix.".

  predicate Under(name: string, prefix: string)
  {
    |prefix| + 1 <= |name| && name[..|prefix| + 1] == prefix + "."
  }

  lemma UnderTransitive(name: string, mid: string, prefix: string)
    requires Under(mid, prefix) && Under(name, mid)
    ensures Under(name, prefix)
  {
    assert name[..|prefix| + 1] == name[..|mid| + 1][..|prefix| + 1];
  }

  lemma {:induction false} ErrorsUnderPrefix(v: Registry, s: Value, nameTag: string, prefix: string)
    requires prefix != ""
    ensures forall b | b in ValidatePrefix(v, s, nameTag, prefix) :: Under(b.field, prefix)
    decreases s, 1
  {
    var d := Deref(s);
    if d.Record? {
      FieldsErrorsUnderPrefix(v, d.fields, nameTag, prefix);
    }
  }

  lemma {:induction false} FieldsErrorsUnderPrefix(v: Registry, fs: seq<Field>, nameTag: string, prefix: string)
    requires prefix != ""
    ensures forall b | b in FieldsErrs(v, fs, nameTag, prefix) :: Under(b.field, prefix)
    decreases fs, 0
  {
    if fs != [] {
      if !Skipped(fs[0]) {
        EntriesErrorsUnderPrefix(v, fs[0], Split(TagGet(fs[0].tags, ValidateKey)), nameTag, prefix);
      }
      FieldsErrorsUnderPrefix(v, fs[1..], nameTag, prefix);
    }
  }

  lemma {:induction false} EntriesErrorsUnderPrefix(v: Registry, f: Field, vts: seq<string>, nameTag: string, prefix: string)
    requires prefix != ""
    ensures forall b | b in EntriesErrs(v, f, vts, nameTag, prefix) :: Under(b.field, prefix)
    decreases f, |vts|
  {
    if vts != [] {
      var name := ResolveName(f, nameTag, prefix);
      assert Under(name, prefix) by {
        assert name[..|prefix| + 1] == prefix + ".";
      }
      if vts[0] == StructEntry {
        ErrorsUnderPrefix(v, f.value, nameTag, name);
        forall b | b in ValidatePrefix(v, f.value, nameTag, name)
          ensures Under(b.field, prefix)
        {
          UnderTransitive(b.field, name, prefix);
        }
      }
      EntriesErrorsUnderPrefix(v, f, vts[1..], nameTag, prefix);
    }
  }
}
