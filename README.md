# validate: struct-field validation, modelled in Dafny

Package `validate` checks the fields of a Go struct against a registry `V` of
user validators. A field opts in with a `validate:"a,b,..."` struct tag. Each
entry of the tag names a validator, and every failure is collected as a
`BadField{Field, Err}`. The reserved entry `struct` validates the field's own
value recursively, and errors found there are reported under `outer.inner`
names. `ValidateAndTag` reports fields under the value of another tag
(`json`, say) instead of their Go names.

The model has four modules:

- `Wrappers`: the `Option` datatype.
- `Strings`: the two pieces of Go's standard library the engine relies on.
  `Split` is `strings.Split(tag, ",")` and `Quote` is the `%q` verb. Each has an
  inverse (`Join`, `Unquote`) and a round-trip lemma.
- `Validate`: the engine from v.go.
  - Reflection is replaced by a `Value` datatype: a string, an integer, a
    pointer, or a `Record` of `Field`s.
  - Each `Field` carries its declared name, whether reflection can interface
    it, its tag (a `map<string, string>`) and its value.
  - The registry is `map<string, Value -> Option<string>>`. A validator
    returns `Some(message)` exactly when the Go validator returns a non-nil
    error.
  - `ValidatePrefix` and its helpers specify the traversal as functions.
  - The methods `ValidateAndTagPrefix` and `ValidateEntries` are the
    traversal as v.go writes it. They loop over the fields, loop over the
    split tag entries, compute the name step by step and append to an error
    sequence. Each is proved to return exactly the specification's result.
- `ValidateExample`: the package example from v_test.go, plus small structs
  that show nesting, renaming, two failures on one field, the every-comma
  split and an inaccessible field.

The registry is a value parameter, so no call can modify it. Go returns `nil`
when there are no errors; the model returns the empty sequence in that case.

Points of v.go the model keeps exactly:

- v.go has no bracket-aware tag grammar and no parameterized validators.
  `V` holds only one-argument validators (v.go:49), and the tag is split on
  every comma (v.go:113). So `"long,"` has a second, empty entry, reported
  as an undefined validator (`ValidateExample.TrailingComma`).
- v.go resolves the reported name afresh for each tag entry (v.go:116-123).
  The model does the same.
- The loop over one field's entries is a separate method, `ValidateEntries`,
  called from the field loop. The two methods are mutually recursive through
  `struct`. This keeps each proof small; the order of operations is v.go's.

## Model

| member | source | states |
|---|---|---|
| Validate.ValidateAndTagPrefix | v.go:88-148 | The returned errors are exactly `ValidatePrefix(v, s, nameTag, prefix)`: one pointer dereferenced, fields in order, skipped fields ignored, entries in split order, `struct` recursed into, undefined and failing validators reported. |
| Validate.ValidateEntries | v.go:113-144 | The errors of one field's entries, in entry order: the resolved name for each entry, recursion on `struct`, an `undefined validator` error for a missing key, and one error per rejecting validator. |
| Validate.ValidateAndTag | v.go:84-86 | Equals validation with an empty prefix. |
| Validate.Validate | v.go:68-70 | Equals `ValidateAndTag(s, "")`: declared field names and no prefix. |
| Validate.NotAStructIsValid | v.go:89-98 | If the value is not a struct after at most one dereference, the result is empty for every registry. No validator can influence it. |
| Validate.PointerToPointerIsValid | v.go:91-98 | A pointer to a struct is validated as the struct. A pointer to a pointer is not followed further and gives no errors. |
| Validate.SkippedFieldContributesNothing | v.go:105-112 | A field that cannot be interfaced, or whose `validate` tag is empty, can be removed or given any other value without changing the result. |
| Validate.UntaggedFieldsAreValid | v.go:109-112 | A struct with no `validate` tag on any field validates to the empty sequence. |
| Validate.FieldOrder | v.go:102-104 | The errors of fields `a ++ b` are the errors of `a` followed by those of `b` (declaration order). |
| Validate.FieldsErrsAppend | v.go:102-145 | The errors of consecutive runs of fields concatenate. |
| Validate.EntriesErrsAppend | v.go:113-115 | The errors of consecutive runs of tag entries concatenate. |
| Validate.EntryOrder | v.go:113-115 | A field tagged `t1,t2` reports the errors of `t1`, then those of `t2`, when both parts are non-empty. |
| Validate.EntriesErrorBound | v.go:133-143 | Without `struct` entries, a field contributes at most one error per tag entry. |
| Validate.UndefinedEntriesReported | v.go:133-139 | Entries missing from the registry each give exactly one `undefined validator: "<name>"` error, in order. Processing does not stop at the first. |
| Validate.PassingEntriesSilent | v.go:141-143 | Entries whose validators all accept the value contribute nothing. |
| Validate.RejectedEntry | v.go:141-143 | A validator that rejects gives exactly one `BadField` under the resolved name, wrapping its message. |
| Validate.StructEntryRecurses | v.go:125-131 | The `struct` entry appends exactly the recursive result for the field value, with the resolved name as prefix. A field whose value is not a struct contributes nothing. |
| Validate.StructNeverLookedUp | v.go:125-133 | Two registries that differ only at key `struct` give identical results, so that key is never consulted. |
| Validate.ReportedName | v.go:116-123 | All six cases of the reported name. It is the field name when `nameTag` is empty. Otherwise it is the value under `nameTag`, or `""` when that tag is absent. With a non-empty prefix, each of these follows `prefix + "."`; with an empty prefix it stands alone. |
| Validate.ErrorsUnderPrefix | v.go:121-131 | With a non-empty prefix, every reported name starts with `prefix + "."`, at any nesting depth. |
| Validate.ErrorTextDetermines | v.go:58-60 | `field %s is invalid: %v` determines the field name when the errors agree, and the error text when the names agree. |
| Validate.UndefinedMessageNamesEntry | v.go:137 | The quoted part of `undefined validator: %q` reads back as the missing entry. |
| Strings.Split | v.go:113 | `strings.Split` on `,`: one more piece than there are commas, and no piece contains a comma. |
| Strings.JoinSplit | v.go:113 | Joining the split pieces with commas restores the tag. |
| Strings.SplitJoin | v.go:113 | Splitting a comma-join of comma-free pieces returns the pieces. |
| Strings.SplitConcat | v.go:113 | Splitting `t1,t2` gives the pieces of `t1` followed by those of `t2`. |
| Strings.UnquoteQuote | v.go:137 | `%q` quoting reads back as the original string, so distinct names are quoted distinctly. |
| Strings.QuotePlain | v.go:137 | A string without quote, backslash, newline, tab or carriage return is quoted verbatim between double quotes. |
| ValidateExample.ExampleValidate | v_test.go:5-36 | With the `long` and `short` validators, X{"hello there", "hi", "help me", …} yields exactly one error. Its text is `field C is invalid: "help me" is too long`. |
| ValidateExample.TwoFailuresInTagOrder | v.go:113-143 | A field tagged `nonzero,odd` holding 0 yields two errors, in tag order. |
| ValidateExample.NestedNames | v.go:116-131 | A nested struct reports `Inner.X`, or `inner.x` under `json` naming. A field lacking the `json` tag is reported under `""`. |
| ValidateExample.TrailingComma | v.go:113 | The tag `long,` has an empty second entry, reported as `undefined validator: ""`. |
| ValidateExample.InaccessibleFieldSkipped | v.go:105-107 | A tagged field that cannot be interfaced gives no errors. |

## Left out

- Reflection itself (`reflect.ValueOf`, `Kind`, `Elem`, `CanInterface`, `Tag.Get`) is replaced by the `Value` datatype. Each field's `accessible` flag stands for `CanInterface`. Struct tags are given already parsed into a map, so Go's tag-syntax parsing is not modelled.
- Nil interfaces and nil pointers (v.go:89-96) are not modelled: `Ptr` always has a target. Their outcome depends on reflect's zero-Value behaviour.
- A registry key bound to a nil function counts as undefined in Go (v.go:134). The model represents that case by leaving the key out of the map.
- Validator bodies are opaque total functions. A Go validator that panics, such as the example's `i.(string)` on a non-string, has no counterpart. The example's validators accept non-strings.
- `%v` of arbitrary error values is modelled as the error's message string. `%q` is modelled for `"`, `\`, newline, tab and carriage return. Go's escapes for other control characters, non-printable runes and invalid UTF-8 are not modelled.
- The error sequence's `nil` versus empty distinction is not modelled. Both are the empty sequence.
- Values are strings, integers, pointers and structs. Go's other kinds (slices, maps, floats, ...) are not elements of a struct walk. They reach validators as opaque values, and strings and integers are enough to exercise the engine.
- Concurrency: none exists. The registry is a caller-owned map that the engine only reads.
