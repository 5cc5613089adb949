# go-env field resolution, modelled in Dafny

go-env fills a configuration struct from three sources, in priority order:
environment variables, flattened JSON configuration files, and per-field
defaults declared in `env` struct tags (`env:"KEY,required=true,default=x"`).
This project models the engine in `env.go` that does the work, together
with the error type `RequiredKeyNotPresentError`:

- `environToMap` turns `NAME=value` entries into a map (module `Environ`);
- `flattenMap` flattens a decoded JSON object into `_`-joined keys, and
  `parseCfgFiles` merges several files in order (module `Flatten`);
- `parseStruct` walks a struct descriptor, replacing reflection, and maps
  every qualified key to the binding (`envEntry`) of the scalar field it
  names (module `StructWalk`);
- `setVal` coerces a raw string to the field's kind (module `Coercion`,
  with `strconv.ParseBool`, `ParseInt` and `FormatInt`/`FormatBool` in
  `Strconv`);
- `prioUnmarshal` runs its two passes over the entry map, and `UnmarshalMap`
  chains the target check, the file merge, the walk and the resolution
  (module `Resolve`, class `Config`, which holds the field storage and the
  `prioMap` marks);
- `RequiredKeyNotPresentError` with its `Error()` message builder, its
  constructor and `IsRequiredKeyNotPresentError` (module `Errs`).

Go map iteration order is unspecified. Every `range` over a map is modelled
in one of three ways. The inner copy loops choose any remaining key (`:|`).
The two loops of `prioUnmarshal` take an explicit order parameter that must
list each key of the entry map exactly once (`Resolve.IsOrder`). A JSON
object is given as the sequence of its members in one iteration order
(`Flatten.JObject`); that sequence is not constrained, and a key may repeat
in it. The flattening theorems hold for every member sequence, and every
property about resolution is proved for all orders (module `Precedence`). Module `Scenarios` replays the
test struct of `env_test.go` through the general theorems.

A field's storage is identified by its path of field indices (`FieldId`),
and the store is a `map<FieldId, Value>`. In Go, each key of a multi-key
field yields an `envEntry` holding the same `reflect.Value`, so the marks map
treats the aliases of a field as one binding. The model states this as
`StructWalk.Coherent`: entries with the same identity are equal.
`StructWalk.WalkBindsScalars` proves that every walk produces a coherent map.

## Model

| member | source | states |
|---|---|---|
| Environ.EnvironToMap | env.go:237-250 | the loop builds exactly `EnvironMap(environ)`: entries in order, skipped or inserted, later ones overwriting |
| Environ.SplitEntryCutsAtFirstEquals | env.go:240-246 | an entry is skipped iff it has no `=` or starts with `=`; otherwise name and value are split at the first `=` only, the name is non-empty and has no `=`, and name + "=" + value is the entry |
| Environ.FirstEquals | env.go:240 | the result is the index of the first `=`, or None when there is none |
| Environ.EnvironMapKeys | env.go:239-248 | a name is in the map iff some entry sets it |
| Environ.EnvironMapLastWins | env.go:247 | the value for a name is the one from the last entry that sets it |
| Flatten.FlattenMap | env.go:186-219 | the loop builds exactly `FlatMap(members)`, the left fold of member contributions |
| Flatten.AddMember | env.go:189-215 | one member: an object is prefixed recursively, arrays and null are dropped, bool/int/float/string are formatted; the result is the accumulator updated by that member's entries |
| Flatten.FlatMapSound | env.go:189-215 | every flat entry comes from a member: a scalar under its own key (FormatBool, base-10 FormatInt, %g, the string verbatim) or an object's sub-entry under `parent_child` |
| Flatten.FlatMapComplete | env.go:189-215 | every key a member yields is present in the flat map |
| Flatten.FlatMapExact | env.go:189-215 | when every member that yields a key yields the same string for it, the flat map holds that string |
| Flatten.FlatMapExample | env.go:190-199 | `{"a": {"b": 5, "c": [1, 2]}}` flattens to `{"a_b": "5"}`: the nested key is joined with `_` and the array is dropped |
| Flatten.ParseCfgFiles | env.go:163-175 | the loop returns exactly `MergeFiles(files)`, copying each file's flat map over the result and stopping at the first unreadable file |
| Flatten.MergeFailureSticks | env.go:166-169 | once a file fails, later files do not change the outcome |
| Flatten.MergeFilesFirstError | env.go:165-169 | the merge succeeds iff every file is readable; otherwise the error names the first unreadable file and no map is returned |
| Flatten.MergeFilesLastWins | env.go:170-172 | a key is in the merge iff some file defines it, and its value is the one from the last file that defines it |
| KeyMaps.Qualify | env.go:193 | `prefix_key` has the prefix, one `_`, then the key |
| KeyMaps.QualifyInjective | env.go:192-194 | under one prefix, distinct keys give distinct qualified keys |
| KeyMaps.Prefixed | env.go:192-194 | every key of the sub-map appears qualified with its value, and nothing else appears |
| KeyMaps.CopyAll | env.go:170-172 | copying the map key by key, in any order, yields `dst + src` |
| KeyMaps.CopyPrefixed | env.go:152-154 | copying with qualified keys, in any order, yields `dst + Prefixed(prefix, src)` |
| KeyMaps.PrefixedInsert | env.go:152-154 | prefixing commutes with inserting one key |
| StructWalk.EntryOf | env.go:143-145 | a binding has the field's identity and kind, is required iff option `required` is exactly "true", and has option `default` as its default ("" when absent) |
| StructWalk.ParseStruct | env.go:133-161 | the walk returns exactly `Walk(fields)`: fields in order, keys in order, later registrations overwriting |
| StructWalk.AddField | env.go:139-158 | one field adds the entries of each of its declared keys, in order |
| StructWalk.AddKey | env.go:148-156 | one key of a struct field adds the sub-struct's walk under `k_subK`; of a scalar field, its binding under `k`; of any other kind, nothing |
| StructWalk.WalkSound | env.go:139-158 | every registered key is reached through declared keys only: the key of a scalar field, qualified by the keys of the structs around it, bound to that field's binding |
| StructWalk.WalkComplete | env.go:139-158 | every such qualified key of a scalar field is registered |
| StructWalk.ReachedEntryIsField | env.go:139-158 | a reached binding's identity is the index path of a scalar field, and the binding is that field's |
| StructWalk.WalkBindsScalars | env.go:148-156 | every registered binding is a scalar field's, and aliases of one field share a single binding |
| StructWalk.LastScalarFieldWins | env.go:155 | a scalar field declared last wins each of its keys |
| Coercion.Coerce | env.go:97-125 | strings are stored verbatim; bools succeed iff the text is one of the twelve ParseBool literals; ints succeed iff base-10 64-bit parsing does; floats iff ParseFloat does, storing its result, and fail with NotAFloat otherwise; a successful value fits the field's kind; any non-scalar kind gives UnsupportedFieldTypeError |
| Coercion.CoerceFormattedBool | env.go:99-105 | a bool written by the flattener is read back as the same bool |
| Coercion.CoerceFormattedInt | env.go:106-112 | an int64 written by the flattener is read back as the same int |
| Strconv.ParseBool | env.go:100 | true for `1 t T TRUE true True`, false for `0 f F FALSE false False`, an error for anything else |
| Strconv.ParseFormatBool | env.go:201 | ParseBool reads back what FormatBool writes |
| Strconv.ParseInt | env.go:107 | a result is a 64-bit integer spelled as an optional sign and one or more decimal digits, with the sign it shows |
| Strconv.ParseFormatInt | env.go:205 | ParseInt reads back every 64-bit integer FormatInt writes |
| Strconv.ParseIntSpelling | env.go:107 | every optional sign (`+`, `-` or none) followed by one or more digits, leading zeros allowed, parses to its signed decimal value when that fits in 64 bits and fails otherwise |
| Strconv.ParseIntNonCanonical | env.go:107 | `"007"` parses to 7 and `"+5"` to 5 |
| Strconv.ParseFormatIntOutOfRange | env.go:107 | ParseInt rejects the spelling of every integer outside the 64-bit range |
| Strconv.Digits | env.go:205 | the base-10 spelling is non-empty, all digits, with no leading zero |
| Strconv.DecimalValueOfDigits | env.go:205 | the spelling of n has value n |
| Resolve.CheckTarget | env.go:34-38 | the target is accepted iff it is a non-nil pointer to a struct, whose fields are returned; otherwise TargetNotPtrToStructError naming its type |
| Resolve.Config.SetVal | env.go:97-125 | on a successful coercion, only the field's slot changes, to the coerced value; on failure the store is unchanged and the cause is returned |
| Resolve.Config.PrioUnmarshal | env.go:55-95 | for the given iteration orders, store, marks and error are exactly those of `Resolution`: pass 1 from empty marks, then pass 2 unless pass 1 failed |
| Resolve.Config.EnvAndFilePass | env.go:58-75 | the first loop ends in the state and error of `Pass1` |
| Resolve.Config.EnvOrFile | env.go:59-74 | one key: an env value is set and marked true; otherwise a file value is set and marked false unless the binding is env-marked; a coercion failure returns the error with nothing changed |
| Resolve.Config.RequiredAndDefaultPass | env.go:77-92 | the second loop ends in the state and error of `Pass2` |
| Resolve.Config.RequiredOrDefault | env.go:78-91 | one key: a marked binding is skipped; an unmarked required one returns RequiredKeyNotPresentError for that key; an empty default is skipped; otherwise the default is set and marked |
| Resolve.Config.UnmarshalMap | env.go:30-53 | a bad target fails with TargetNotPtrToStructError and an unreadable file with its error, both leaving the store unchanged; otherwise the store and error are those of resolving the walked entry map against env and the merged files |
| Resolve.Pass1Sticks | env.go:60-72 | after the first failing key, the rest of pass 1 changes nothing |
| Resolve.Pass2Sticks | env.go:81-90 | after the first failing key, the rest of pass 2 changes nothing |
| Precedence.Pass1Entry | env.go:58-75 | after a successful pass 1, in any order, a binding is env-marked iff one of its keys is in env, and marked iff one is in env or the file map; it then holds the coerced env value of one of its env keys, or failing that the coerced file value of one of its file keys; a binding with neither is untouched |
| Precedence.Pass2Entry | env.go:77-92 | after a successful pass 2, in any order, a binding marked in pass 1 is untouched; an unmarked one reached by the loop is not required, and gets its coerced default iff the default is non-empty, staying untouched otherwise |
| Precedence.Pass2MarksGrow | env.go:78-91 | pass 2 never removes a mark |
| Precedence.Pass2RequiredError | env.go:81-83 | a RequiredKeyNotPresentError from pass 2 carries exactly one key, of a required binding that pass 1 left unmarked |
| Precedence.Pass1ErrorIsCoercion | env.go:60-72 | pass 1 fails only by a coercion error on an env or file value |
| Precedence.Pass1StopsAtFirstError | env.go:60-72 | a failing pass 1 stops at the first failing key; fields assigned before it keep their values |
| Precedence.Pass2StopsAtFirstError | env.go:81-90 | a failing pass 2 stops at the first unmarked required binding or failing default; earlier assignments are kept |
| Precedence.ResolvedValue | env.go:55-95 | after a successful prioUnmarshal, in any pair of orders: a binding with a key in env holds the coerced env value of one such key; else one with a key in the file map holds the coerced file value of one such key; else it is not required, and it holds its coerced default when the default is non-empty, or is untouched when it is empty |
| Precedence.RequiredReported | env.go:77-83 | a RequiredKeyNotPresentError names exactly one key, of a required binding none of whose keys is in env or the file map; and whenever such a binding exists, the call fails |
| Precedence.EnvValueWins | env.go:59-68 | after a successful call, a key in env that is its binding's only key in env ends up holding that env value, whatever the file map and the default say |
| Precedence.Pass1EnvValue | env.go:59-68 | after a successful pass 1, a key in env that is its binding's only key in env leaves the binding env-marked and holding that key's coerced env value |
| Precedence.Pass2Keeps | env.go:77-92 | a binding marked by pass 1, required, or with an empty default keeps its pass-1 value through pass 2, whether pass 2 succeeds or stops at an error |
| Precedence.Pass1Frame | env.go:58-75 | pass 1, succeeding or not, leaves every field that no binding names unchanged |
| Precedence.Pass2Frame | env.go:77-92 | pass 2, succeeding or not, leaves every field that no binding names unchanged |
| Precedence.ResolutionFrame | env.go:55-95 | prioUnmarshal, succeeding or not, leaves every field that no binding names unchanged: untagged fields, fields of unsupported kinds, and fields whose keys were all taken over by later fields |
| Precedence.Pass1StepsSucceed | env.go:58-75 | in a successful pass 1, every key's step succeeds from the state the keys before it left |
| Precedence.EnvCoercionFailureFails | env.go:59-63 | a key in env whose value does not coerce to its field's kind makes the call fail with a coercion error on an env or file value, in every pair of orders |
| Precedence.FileCoercionFailureFails | env.go:68-72 | a key in the file map whose binding has no key in env, and whose file value does not coerce, makes the call fail with a coercion error on an env or file value, in every pair of orders |
| Precedence.DefaultCoercionFailureFails | env.go:84-90 | a binding with no key in env or the file map, not required, whose non-empty default does not coerce, makes the call fail in every pair of orders |
| Precedence.StringBindingsFailOnlyOnRequired | env.go:120-122 | with string fields only, pass 1 cannot fail, and any error is a missing required key |
| Errs.RequiredKeyNotPresentError.Error | errs/required_key_not_present_error.go:13-30 | the builder loop produces `MessageOf(keys)`: with one key "required env key missing; K must be provided", otherwise the keys joined in order by ", " inside "…one of the following keys must be provided [ ]" |
| Errs.MessageListsKeys | errs/required_key_not_present_error.go:19-29 | for zero or several keys the message is the fixed prefix, the join and "]"; no keys give "[]"; keys containing no comma can be read back from the message |
| Errs.JoinSnoc | errs/required_key_not_present_error.go:20-25 | appending a key to a non-empty join adds ", " and the key, and no trailing separator |
| Errs.JoinSplitKeys | errs/required_key_not_present_error.go:20-25 | splitting the join at ", " gives back the keys, when no key contains a comma |
| Errs.NewRequiredKeyNotPresentError | errs/required_key_not_present_error.go:32-36 | the error holds the given keys unchanged and in order |
| Errs.IsRequiredKeyNotPresentError | errs/required_key_not_present_error.go:38-44 | false for no error, true exactly for a RequiredKeyNotPresentError |
| Scenarios.FlatWalk | env_test.go:20-25 | the four-field test struct registers each field once under its key, with the default and required options read from its tag |
| Scenarios.DefaultScenarioSucceeds | env_test.go:47-59 | with MISSING_VAR absent from env and both required keys present, the call succeeds in every order |
| Scenarios.DefaultApplied | env_test.go:47-59 | ... and MISSING_VAR holds its default "missing" |
| Scenarios.EnvValuesApplied | env_test.go:47-59 | ... and the other three fields hold their env values |
| Scenarios.AllEnvSucceeds | env_test.go:33-46 | with all four keys in env, the call succeeds in every order |
| Scenarios.AllEnvApplied | env_test.go:33-46 | ... and the fields hold "Something", "Not missing", "Here" and "All good": the env value beats MISSING_VAR's default |
| Scenarios.RequiredMissing | env_test.go:60-73 | with REQUIRED_MISSING_VAR absent, every order yields exactly RequiredKeyNotPresentError(["REQUIRED_MISSING_VAR"]), which IsRequiredKeyNotPresentError recognises; the first three fields still hold "Something", "Not missing" and "Here", and the fourth is left as it was |
| Scenarios.BadIntFails | env.go:106-110 | an int field given "not-a-number" in env fails the call with exactly SettingValue(FromEnv, "N", NotAnInt("not-a-number")) |
| Scenarios.SingleScalarStruct | env.go:148-156 | a struct field holding a scalar registers it under `outer_inner`, with the inner field's binding and identity |

## Left out

- `readCfgFile`: file reading and `json.Unmarshal` are I/O and a foreign decoder. A file is given as its decoded JSON object (`Flatten.CfgFile`) or as unreadable. `json.Unmarshal` decodes every number as float64, so the int64 branch of `flattenMap` sees no input from files. The model keeps both branches but does not claim integers arrive as int64.
- `Unmarshal` and `UnmarshalFile`: they only read `os.Environ()` and call `UnmarshalMap`. The model starts from `UnmarshalMap` with the env map given explicitly. `Environ.EnvironToMap` models the conversion.
- `strconv.ParseFloat` and `fmt.Sprintf("%g")`: floating point is not modelled. A float is its 64-bit pattern, and both functions are the fields of a `FloatCodec` parameter.
- Width narrowing: `SetInt` and `SetFloat` on int8/16/32 and float32 fields are not modelled. `Strconv.ParseInt` checks the 64-bit range only, as the source does, and the stored value is the 64-bit one.
- `tags.ParseTag` and reflection: a field is given as a descriptor holding its keys, its options and its kind. Reading the tag and matching `reflect.Kind`s to `Scalar` kinds happen outside the model.
- `errors.Wrap` and `Wrapf`: the wrapped message text is not modelled. An error keeps the source, key and cause (`Errs.SettingValue`) or the file path (`Errs.ConfigFile`), and `IsRequiredKeyNotPresentError` looks at the error itself, without `errors.Cause`.
- `Strconv.ParseInt`: returns a single failure. It does not distinguish `strconv.ErrSyntax` from `strconv.ErrRange`.
- `errs/unsupported_field_type_error.go` and `errs/target_not_ptr_to_struct_error.go` are represented only by constructors naming the type. Their messages call `reflect.Type.Name()`.
- `Resolve.Config`: the marks are a field of the class, reset at the start of each `PrioUnmarshal`. In the source, `prioMap` is a local map of `prioUnmarshal`.
- Determinism: nothing claims a unique outcome when a binding has several keys present in one source with different values, or when flattened keys collide. In those cases the theorems say that some present key's value wins, for every order. Whether the call succeeds can also depend on the order. Take an int binding with key `A` in env holding "1" and key `B` in the file map holding "x". The order `[B, A]` fails in pass 1, because `B` is tried before the binding is env-marked. The order `[A, B]` succeeds. Precedence.FileCoercionFailureFails therefore promises a failure only for a binding with no key in env.
- Precedence.ResolvedValue: describes only the successful call. A failed call is described by Pass1StopsAtFirstError, Pass2StopsAtFirstError and RequiredReported.
- Resolve.CheckTarget: does not model the panic of `UnmarshalMap(env, nil)`. There `reflect.ValueOf(nil).Type()` at env.go:32 is called on the zero `reflect.Value` and panics before the check at env.go:34. A `TargetType` always describes a typed target, so that call is outside the model.
- Resolve.Config.SetVal: does not model the panic for an unexported tagged field. `SetBool`, `SetInt`, `SetFloat` and `SetString` (env.go:104, 111, 118, 121) panic when the field cannot be set. A field descriptor carries no exported flag, and the model stores the value.
- Scenarios: the two nested cases of `TestUnmarshalMapNestedStructs` (env_test.go:118-170) are not replayed. They need float parsing and width narrowing, neither of which is modelled, and a two-level walk of that struct is beyond what the solver proves within its budget. `Scenarios.SingleScalarStruct` covers a struct field holding one scalar.
