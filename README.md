# mapconv in Dafny

`mapconv.ToMap(value, prefix)` flattens a nested Go value into a
`map[string]string`. Each leaf value (a bool, a signed or unsigned integer, a
float or a string) is stored under its path. A map key adds `["key"]` to the
path. An array or slice element adds its 1-based index as `[n]`. A nil at the top
level becomes `{prefix: "null"}`. Values it cannot format (channels, functions,
unsafe pointers, complex numbers, invalid values, and every kind it does not list,
such as pointers and structs) add no entry and produce an error. The traversal
still continues past them.

The model has three layers:

- **Specification** (`flattening.dfy`, module `Flattening`). `Flatten`,
  `FlattenElems`, `FlattenEntries` and `SubValue` follow `ToMap`, its two loops
  and the `assignSubValue` closure branch for branch. They return a `Flat`: the
  entries and the error. The module also gives an order-free reference
  description: `Leaves` is the set of (path, text) pairs that a value's leaves
  produce. `Failures` is the set of errors its unformattable parts produce.
- **The program as written** (`mapconv.dfy`, module `MapConv`). A `StringMap`
  class stands for the Go map, a reference that is written in place. The
  methods `ToMap`, `AssignSubValue` and `CopyInto` fill it with the same loops
  the source has, and they reassign `err` on every pass. Each method is proved to
  compute exactly what the specification says.
- **Properties** (`properties.dfy`, `format.dfy`, `paths.dfy`, `values.dfy`,
  `examples.dfy`):
  - the entries are exactly the leaves;
  - every key starts with the prefix, and container nodes get no entry;
  - any error returned is genuine, and it is the last child's error;
  - every leaf's text parses back to its value, floats included after the trimming;
  - paths are injective within one level;
  - the result does not depend on the order of map keys;
  - every row of the table test in `mapconv_test.go` holds.

Values are the `Value` datatype, one constructor per group of reflect kinds.
`Iface` is a value held in an `interface{}`. `Nil` is the nil passed to `ToMap` itself; a nil `interface{}` element is `Iface(Nil)`. A Go map is
`Map(entries)`, whose entries come in the order `MapKeys` returned on that call.
Integers are `Int64`/`Uint64` subset types. A float is its sign and its magnitude
in whole millionths, or one of `+Inf`, `-Inf` and `NaN`.

## Model

| member | source | states |
|---|---|---|
| MapConv.ToMap | mapconv.go:12-71 | The returned map is fresh. Its entries and the returned error are exactly `Flatten(value, prefix)` for every value and prefix. |
| MapConv.AssignSubValue | mapconv.go:20-44 | m afterwards is the old m overridden by `SubValue(path, v)`'s entries. The returned error is `SubValue(path, v)`'s error. |
| MapConv.CopyInto | mapconv.go:35-37 | After the loop over the sub-map's keys, m is the old m overridden by every entry of the sub-map. |
| MapConv.StringMap.constructor | mapconv.go:13 | `make` yields an empty map. |
| MapConv.StringMap.Put | mapconv.go:16 | `m[key] = value` sets that key and leaves every other key as it was. |
| Flattening.Flatten | mapconv.go:12-71 | The body follows `ToMap` branch for branch: nil, the map loop, the slice loop, and the default call of `assignSubValue`. Its own contract: a returned error names a path under `prefix`. FlattenLeaves, FlattenKeysUnderPrefix and FlattenErrorGenuine constrain its entries and its error. |
| Flattening.FlattenEntries | mapconv.go:48-56 | The first n passes of the loop over `MapKeys`. Its own contract: a returned error names a path under `prefix + "["`. EntriesLeaves, EntriesErrorGenuine and MapLastErrorWins constrain it. |
| Flattening.FlattenElems | mapconv.go:57-65 | The first n passes of the loop over the indices. Its own contract: a returned error names a path under `prefix + "["`. ElemsLeaves, ElemsErrorGenuine and SeqLastErrorWins constrain it. |
| Flattening.SubValue | mapconv.go:20-44 | What `assignSubValue(path, v)` adds to m and returns, case by case. Its own contract: a returned error names a path under `path`. SubLeaves, SubErrorGenuine and SubScalar constrain it. |
| Paths.KeyPath | mapconv.go:50 | The key is inserted without escaping: the path is exactly `|key| + 4` characters longer than `prefix`. PathsExtend, KeyPathInjective and KeyIndexDistinct constrain it. |
| Paths.IndexPath | mapconv.go:59 | The path is at least three characters longer than `prefix`: a bracket, the digits of i+1 and a bracket. PathsExtend, IndexPathInjective and KeyIndexDistinct constrain it. |
| Format.FormatBool | mapconv.go:23 | The text reads back as the same bool. |
| Format.FormatFixed | mapconv.go:25 | For a finite value the text ends with a point and exactly six digits, and it starts with '-' exactly when the sign bit is set. |
| Format.FormatFloat | mapconv.go:25 | The text is a non-empty prefix of the fixed-point text and never ends in '.'. ParseFormatFloat, FormatFloatFinite and FormatFloatNoExponent constrain it further. |
| Values.LeafText | mapconv.go:22-31 | A bool's text reads back as the bool. An integer's text is non-empty and starts with '-' exactly when the integer is negative. An unsigned integer's text is canonical. A float's text is a prefix of its fixed-point text that does not end in '.'. A string is stored as itself. LeafTextRoundTrip completes the round trips. |
| FlattenProperties.FlattenNil | mapconv.go:15-18 | A nil value gives exactly `{prefix: "null"}` and no error, whatever the prefix. |
| FlattenProperties.FlattenScalar | mapconv.go:66-67 | A top-level scalar is stored at `prefix` itself, with its leaf text, as the only entry and with no error. |
| FlattenProperties.SubScalar | mapconv.go:22-31 | A scalar child adds exactly one entry, its leaf text at its path, and no error. |
| Values.LeafTextRoundTrip | mapconv.go:22-31 | A leaf's text parses back to the value: a bool, a base-10 signed integer, a canonical unsigned decimal, a float, or the string itself. |
| Format.ParseFormatBool | mapconv.go:23 | A bool's text is "true" or "false" and parses back to the bool. |
| Format.FormatInt | mapconv.go:27 | The decimal text is non-empty and starts with '-' exactly when the integer is negative. |
| Format.ParseFormatInt | mapconv.go:27 | Parsing an integer's decimal text gives the integer back. |
| Format.FormatNat | mapconv.go:29 | An unsigned integer's text is all digits, and it has no leading zero unless it is "0". |
| Format.ParseFormatNat | mapconv.go:29 | Parsing an unsigned integer's text gives the number back. |
| Format.FormatParseNat | mapconv.go:29 | Every canonical digit string is the text of its own value, so the text is unique. |
| Format.FormatNatInjective | mapconv.go:29 | Distinct numbers get distinct texts. |
| Format.TrimRight | mapconv.go:25 | `strings.TrimRight` with one character: the result is a prefix of the input, does not end in that character, and only that character was removed. |
| Format.TrimRightUnique | mapconv.go:25 | The three properties above determine the trimmed string uniquely. |
| Format.FormatFloatFinite | mapconv.go:25 | The trimmed float text is the sign, then every digit of the integer part, then the point and the fraction digits up to the last non-zero one, or no point when the fraction is zero. |
| Format.FormatFloatWholeNumber | mapconv.go:25 | A whole number loses its point and zeros but keeps all digits before the point (100.0 becomes "100"). |
| Format.FormatFloatFourPointTwo | mapconv.go:25 | 4.2 is rendered "4.2". |
| Format.FormatFloatNonFinite | mapconv.go:25 | +Inf, -Inf and NaN pass through the trimming unchanged. |
| Format.FormatFloatNoExponent | mapconv.go:25 | The float text never uses exponent notation. |
| Format.ParseFormatFloat | mapconv.go:25 | Round trip: the trimmed text parses back to exactly the value that was formatted, so trimming loses nothing. |
| Paths.PathsExtend | mapconv.go:49-61 | A child's path extends `prefix + "["`. |
| Paths.KeyPathInjective | mapconv.go:50 | Within one level, distinct keys give distinct paths. |
| Paths.IndexPathInjective | mapconv.go:59 | Within one level, distinct indices give distinct paths. |
| Paths.KeyIndexDistinct | mapconv.go:49-61 | A key path is never an index path under the same prefix. |
| FlattenProperties.DescribesMerge | mapconv.go:35-37 | Merging a child's map into m merges the sets of leaves the two describe. |
| FlattenProperties.FlattenLeaves | mapconv.go:32-37 | Every entry of `ToMap(v, prefix)` is a leaf reachable from v, at its full path. Every leaf's path has an entry. |
| FlattenProperties.EntriesLeaves | mapconv.go:48-56 | After n passes of the map loop, the entries are exactly the leaves of the first n entries. |
| FlattenProperties.ElemsLeaves | mapconv.go:57-65 | After n passes of the sequence loop, the entries are exactly the leaves of the first n elements. |
| FlattenProperties.SubLeaves | mapconv.go:20-44 | What `assignSubValue` adds is exactly the leaves of that child. |
| FlattenProperties.EntryLeavesStep | mapconv.go:49-52 | One more map-loop pass adds exactly the next entry's leaves. |
| FlattenProperties.ElemLeavesStep | mapconv.go:58-61 | One more sequence-loop pass adds exactly the next element's leaves. |
| FlattenProperties.LeavesUnder | mapconv.go:32-37 | Every leaf path starts with the prefix. Below a container, it starts with `prefix + "["`. |
| FlattenProperties.FlattenKeysUnderPrefix | mapconv.go:32-37 | Every key of the result starts with the prefix. For a container, every key starts with `prefix + "["` and the prefix itself has no entry. |
| FlattenProperties.FlattenErrorGenuine | mapconv.go:38-41 | A returned error always names an unsupported or unknown value that really occurs in the input, at its path. |
| FlattenProperties.EntriesErrorGenuine | mapconv.go:49-56 | The map loop's error after n passes comes from one of the first n entries. |
| FlattenProperties.ElemsErrorGenuine | mapconv.go:57-65 | The sequence loop's error after n passes comes from one of the first n elements. |
| FlattenProperties.SubErrorGenuine | mapconv.go:38-43 | `assignSubValue` returns only errors for unformattable values inside the child. |
| FlattenProperties.SeqLastErrorWins | mapconv.go:57-65 | A sequence's error is None when it is empty. Otherwise it is exactly its last element's error: earlier errors are overwritten. |
| FlattenProperties.MapLastErrorWins | mapconv.go:48-56 | A map's error is None when it is empty. Otherwise it is the error of the key visited last. |
| FlattenProperties.FlatSeqOfScalars | mapconv.go:57-61 | A sequence of n scalars gives exactly n entries and no error. The entry at `[i+1]` is element i's text, and there are no other keys. |
| FlattenProperties.FlatMapOfScalars | mapconv.go:49-52 | A map of n distinct keys with scalar values gives exactly n entries and no error. The entry at `["k"]` is k's text, and there are no other keys. |
| FlattenProperties.StoreAllDistinct | mapconv.go:35-37 | Storing n texts under n distinct paths gives a map of size n that holds each text at its path. |
| FlattenProperties.DescribedUniquely | mapconv.go:36 | When no two leaves share a path, the leaves determine the map. |
| FlattenProperties.EntryLeavesMembers | mapconv.go:49-52 | A leaf of a map is a leaf of one of its entries, whatever the entries' order. |
| FlattenProperties.MapOrderIrrelevant | mapconv.go:49 | Two iteration orders of the same map give the same leaves. When no two leaves share a path, they give the same entries. |
| TableExamples.NilRow | mapconv_test.go:15-20 | The "nil" row. |
| TableExamples.ScalarRows | mapconv_test.go:21-104 | The bool, integer and string rows give the single entry at "". |
| TableExamples.FloatRow | mapconv_test.go:87-98 | The float rows give "4.2". |
| TableExamples.MapOfStringsRow | mapconv_test.go:121-130 | The "map of strings" row. |
| TableExamples.SliceOfIntsRow | mapconv_test.go:144-159 | The "slice of ints" and "array of ints" rows. |
| TableExamples.SliceOfStringsRow | mapconv_test.go:160-168 | The "slice of strings" row, under prefix "strings". |
| TableExamples.SliceOfMapsRow | mapconv_test.go:169-178 | The "slice of maps" row. |
| TableExamples.SliceOfSlicesRow | mapconv_test.go:179-190 | The "slice of slice of ints" row. |
| TableExamples.MapOfMapsRow | mapconv_test.go:105-120 | The "map of maps of strings" row. |
| TableExamples.MapOfSlicesRow | mapconv_test.go:131-143 | The "map of slices of strings" row. |
| TableExamples.JsonDocumentRow | mapconv_test.go:192-213 | The JSON document row: interface{} wrappers are unwrapped, and the numbers 35, 5 and 7 lose their ".000000". |
| TableExamples.ErrorMasked | mapconv.go:57-65 | An unsupported element followed by a good one leaves no entry and no returned error, although the failure is among the input's failures. |
| TableExamples.PartialResultKept | mapconv.go:49-56 | An error in the last map entry is returned together with the earlier entries: the traversal does not stop. |
| TableExamples.UintptrIsUnknown | mapconv.go:28-41 | uintptr is not in the unsigned case, so it yields the unknown-kind error and no entry. |
| TableExamples.NilInInterfaceIsNull | mapconv.go:32-34 | A nil held in an interface{} element recurses into ToMap's nil case and stores "null" at its path. |
| TableExamples.NilContainerAddsNothing | mapconv.go:57-58 | A nil slice or map element adds nothing and no error. |

## Left out

- Reflection: `reflect.ValueOf`, `Kind`, `MapKeys`, `Index`, `MapIndex` and `Interface` are replaced by the `Value` datatype. A value's kind is its constructor.
- Map keys other than strings are not modelled. For those keys, `k.String()` gives reflect's placeholder text rather than the key.
- The order of Go map iteration is not modelled. A map's entries arrive in the order `MapKeys` gave on that call. `MapOrderIrrelevant` shows that the leaves, and the entries whenever paths are unique, do not depend on that order. The returned error does depend on it.
- The binary-to-decimal rounding in `strconv.FormatFloat` is not modelled. A float arrives already rounded to whole millionths, and widening float32 to float64 is not modelled either. Only the fixed-point layout and the trimming at mapconv.go:25 are.
- The error message text built by `fmt.Errorf` is not modelled. An error carries only its path and kind. errors.go is not part of this model: `ToMap` never calls its helpers.
- Cyclic values, such as a map that holds itself through an `interface{}`, recurse forever in Go. A Dafny datatype value is finite, so they cannot be expressed.
- Integer widths: every signed width is one `Int64` and every unsigned width is one `Uint64`. Their decimal text is the same at any width.
- A top-level `Iface` value cannot come from `reflect.ValueOf`. The model accepts it and formats what it holds.
- A bare `Nil` element cannot come from Go: a nil `interface{}` element reaches `assignSubValue` as `Iface(Nil)` and gives "null". `SubValue` treats a bare `Nil` as the zero `reflect.Value`, whose kind is Invalid, and reports it as unsupported.
- The JSON decoding in the test is not modelled. `JsonDocumentRow` uses the value `json.Unmarshal` produces for that document, written out by hand, with the document's key order as the map's order.
- `ToMap` dispatches on the kind alone (mapconv.go:21-42). There is no `fmt.Stringer` check. A pointer reaches the default case and is reported as unknown (mapconv.go:40-41). Paths use only the bracketed `["key"][n]` form (mapconv.go:50, 59).
- Uniqueness of paths across levels is not claimed. Keys are not escaped, so a key containing `"]["` can produce the same path as a nested value, and then the later write wins. Injectivity is proved within one level only.
