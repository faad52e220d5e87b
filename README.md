# jsonapi core in Dafny

A model of the core of the Go package `jsonapi` (kkaribu/jsonapi), with proofs about it. It covers four parts.

- **The schema** (`schema.go`, module `Schemas`, class `Schemas.Schema`). This is an ordered list of types kept unique by name. It has:
  - operations to add, remove, find and dispatch changes to a type;
  - the integrity check of relationships;
  - the encoding of the thirteen attribute kinds as Go type names, where a leading `*` means nullable;
  - the zero value of each kind.
- **The filter query** (`filter_query.go`, module `Filters`).
  - A condition is a tree: a comparison leaf, or `and`/`or` with children.
  - `FilterResource` evaluates a condition against a resource, using per-kind comparison tables.
  - A condition's JSON wire shape is written by `MarshalJSON` and read by `UnmarshalJSON`.
- **The registry** (`registry.go`, module `Registries`, class `Registries.Registry`). This is a catalogue of types by name. There are three parts:
  - `RegisterType` builds a type from a struct's fields and their `json`/`api` tags.
  - `Check` reports dangling targets and missing inverses, and copies each inverse's cardinality in.
  - The `Resource` and `Collection` factories refuse unknown names.
- **Identifiers** (`identifiers.go`, module `Identifiers`): pairs of a type and an id, built from a list of ids and projected back.

Shared modules:
- `Values` holds the attribute kinds and the dynamic values an `interface{}` holds. Time is an instant plus a zone. A JSON document is abstract.
- `Text` holds string order, `strings.Split` and `strings.Contains`.
- `Unordered` is the union of per-key multisets over a set of keys. Go ranges over maps in no fixed order, so both integrity checks are specified by the multiset of errors they report.
- `Wrappers` holds `Option` and `Result`.
- `Fixtures` holds concrete catalogues: the test types `type1`/`type2` of `jsonapi_test.go`, and a pair on which the two checks disagree.

How the source's effects are modelled:
- State changed in place becomes a class field. `Schema.types` is a `seq`; `Registry.types` is a `map`.
- Go's map iteration is modelled by choosing any remaining key (`:|`).
- Panics become error results: `RegisterType` on a used name, `Resource`/`Collection` on an unknown name. The zero or `nil` results of lookups are modelled as they are.

Where the model differs from what the package's names and comments suggest, it follows the code:
- `Schema.Check` only reports. It does not set `InverseToOne`; only `Registry.Check` does that, as the comment at registry.go:116 ("should be set in Check()") says.
- `Registry.Check` has its own, weaker test and does not call `Schema.Check`.
- A decoded comparison literal that is a JSON number becomes a `float64`, never an `int`.
- `and` never matches, and a leaf matches only an identical operand. See Findings.

## Model

| member | source | states |
|---|---|---|
| Schemas.GetAttrType | schema.go:200-237 | The result is a known kind or AttrTypeInvalid. An invalid result is never nullable. Nullable holds exactly when the kind is known and the name starts with `*`. |
| Schemas.GetAttrTypeString | schema.go:239-278 | The name is non-empty beyond the optional `*` exactly when the kind is a known attribute kind. |
| Schemas.AttrTypeRoundTrip | schema.go:202-278 | For every known kind and both nullabilities, parsing the printed name gives back the same kind and nullability. |
| Schemas.AttrTypeStringRoundTrip | schema.go:202-278 | Every name that parses to a known kind is printed back as the same string. |
| Schemas.StarOfUnknownIsInvalid | schema.go:202-236 | An unknown name stays unknown with a `*` in front, and is then not nullable. |
| Schemas.GetZeroValue | schema.go:280-367 | For a known kind: a typed nil pointer when null is asked, otherwise the zero value of that same kind (`""`, 0 of the kind's width, false, or the zero time). For an unknown kind: the untyped nil. |
| Schemas.FirstIndex | schema.go:124-131 | The index found holds the name, and no earlier entry holds it. |
| Schemas.LookupUnique | schema.go:124-131 | With unique names, looking up an entry's name finds that entry. |
| Schemas.Removed | schema.go:56-64 | The intended removal: no entry with the name is left, the list does not grow, and exactly the entries with other names remain. |
| Schemas.RemovedUnique | schema.go:56-64 | With unique names, the intended removal cuts out the one entry with the name and keeps the others in their order. |
| Schemas.RemoveTypeAsWrittenMeaning | schema.go:56-64 | The loop as written finishes iff no entry before the last has the name, and then it leaves the intended removal. |
| Schemas.RemovedAbsent | schema.go:56-64 | Removing a name that is absent leaves the list unchanged. |
| Schemas.RemovedLast | schema.go:57-59 | When only the last entry has the name, removal drops exactly that entry, which matches the splice. |
| Schemas.RemoveTypeFirstOfTwoPanics | schema.go:57-59 | On the list [a, b], removing a's name faults in the loop as written (index out of range), while the intended result is [b]. |
| Schemas.RelErrors | schema.go:154-194 | A relationship draws at most three errors. |
| Schemas.RelErrorsMeaning | schema.go:155-192 | TargetMissing is reported iff no type has the target's name. InverseTypeWrong is reported iff an inverse is named and InverseType is not the owner's name. InverseNotMutual is reported iff an inverse is named and no relationship of the target points back. There are no errors iff none of the three holds. |
| Schemas.TypeErrorsEmptyIff | schema.go:154-194 | A type draws no errors iff each of its relationships draws none. |
| Schemas.TypesErrorsEmptyIff | schema.go:152-195 | A list of types draws no errors iff every type in it is clean. |
| Schemas.CheckCleanIff | schema.go:145-198 | Check reports nothing iff every relationship of every type draws no error. |
| Schemas.CheckReportsEveryRel | schema.go:152-195 | Every error of every relationship is among those Check reports. |
| Schemas.DanglingWithInverse | schema.go:158-191 | A dangling relationship that names an inverse reports TargetMissing first and InverseNotMutual last. |
| Schemas.MutualPairClean | schema.go:167-192 | Two relationships that target each other's types, name each other as inverses and name their owners as InverseType draw no errors. |
| Schemas.Schema.constructor | schema.go:32-34 | A new schema has no types. |
| Schemas.Schema.AddType | schema.go:36-53 | An empty name is refused and changes nothing. A name already used is refused and changes nothing. Otherwise the type is appended at the end. Unique names stay unique. |
| Schemas.Schema.RemoveType | schema.go:55-64 | Returns no error and leaves exactly the list without the named type. An absent name leaves the list unchanged. Unique names stay unique. |
| Schemas.Schema.Update | schema.go:66-108 | An unknown name gives TypeNotFound and changes nothing. Otherwise only the first entry with the name is replaced, by the change applied to it, and the change's error is returned. |
| Schemas.Schema.AddAttr | schema.go:66-75 | The same as Update, with the type's own AddAttr. |
| Schemas.Schema.RemoveAttr | schema.go:77-86 | The same as Update, with the type's own RemoveAttr. |
| Schemas.Schema.AddRel | schema.go:88-97 | The same as Update, with the type's own AddRel. |
| Schemas.Schema.RemoveRel | schema.go:99-108 | The same as Update, with the type's own RemoveRel. |
| Schemas.Schema.HasType | schema.go:110-119 | True iff some entry has the name. |
| Schemas.Schema.GetType | schema.go:121-131 | Found iff some entry has the name. When found, the result is the first such entry; otherwise it is the zero Type. |
| Schemas.Schema.CheckRel | schema.go:154-194 | The errors of one relationship equal the specification RelErrors, in order. |
| Schemas.Schema.CheckOneType | schema.go:152-195 | The errors of one type, as a multiset, equal the union over its relationships, whatever order the map is ranged in. |
| Schemas.Schema.Check | schema.go:143-198 | The multiset of errors equals the union over all types. The schema is not modified. |
| Filters.CheckStrLaws | filter_query.go:152-169 | On strings, under code-point order (Go's byte order on valid UTF-8): `=`/`!=` are complements, and exactly one of `<`, `=`, `>` holds. `<=` is `<` or `=`, and `>=` is `>` or `=`. `a < b` iff `b > a`. Any other operator gives false. |
| Filters.CheckIntLaws | filter_query.go:171-188 | The same laws on signed integers. |
| Filters.CheckUintLaws | filter_query.go:190-207 | The same laws on unsigned integers. |
| Filters.CheckBoolLaws | filter_query.go:209-218 | `=` is equality and `!=` its complement. Every other operator gives false. |
| Filters.CheckTimeGreaterIsAtLeast | filter_query.go:220-237 | `>` computes the same as `>=`. `=` compares instants only. A time is `>` itself, so the trichotomy fails. |
| Filters.CheckTimeIntendedLaws | filter_query.go:220-237 | With `>` as After alone, time obeys the same order laws as the other kinds, on instants. |
| Filters.MakeInt | filter_query.go:239-254 | Succeeds exactly on the five signed kinds, and then gives the value back with its width. Otherwise it gives 0 and false. |
| Filters.MakeUint | filter_query.go:256-271 | Succeeds exactly on the five unsigned kinds, and then gives the value back with its width. Otherwise it gives 0 and false. |
| Filters.CheckValOnIntegers | filter_query.go:119-150 | On same-kind integers of any width, checkVal is checkInt or checkUint on the widened values. |
| Filters.FilterResource | filter_query.go:77-117 | The loop evaluator computes the reference evaluation Satisfies. `and` stops at the first failing child and `or` at the first matching one. |
| Filters.AndLoopFalse | filter_query.go:96-102 | The `and` loop returns false from every position. |
| Filters.AndNeverMatches | filter_query.go:95-117 | An `and` condition never matches, whatever its children, the empty list included. |
| Filters.OrLoopIff | filter_query.go:103-109 | The `or` loop from position i is true iff some child from i on matches. |
| Filters.OrMatchesIff | filter_query.go:103-116 | `or` matches iff some child matches. The empty `or` never matches. |
| Filters.LeafNeedsIdentity | filter_query.go:110-114 | A comparison leaf matches only when its literal is identical to the operand. |
| Filters.LeafOnIdentical | filter_query.go:110-114 | On an identical operand, a leaf matches exactly as the per-kind table of a value against itself says: `=`, `<=` and `>=` do; `<` and `!=` do not; `>` does only for time; bool answers only `=`. |
| Filters.NotEqualNeverMatches | filter_query.go:110-114 | A `!=` leaf never matches. |
| Filters.CrossKindNeverMatches | filter_query.go:110-114 | A literal of a different kind from the operand never matches. |
| Filters.UnknownOpNeverMatches | filter_query.go:95-116 | An operator outside the eight known ones never matches, and never faults. |
| Filters.UnknownFieldNeverMatches | filter_query.go:80-93 | A field that is neither an attribute nor a relationship never matches. |
| Filters.RelationshipWins | filter_query.go:84-93 | When a field is a relationship, the attribute of the same name plays no part. |
| Filters.ToOneMatchesId | filter_query.go:87-93 | A to-one relationship's operand is its id string, so `=`, `<=` and `>=` against that id match. |
| Filters.ToManyNeverMatches | filter_query.go:87-93 | A comparison on a to-many relationship never matches. |
| Filters.SameInstantOtherZone | filter_query.go:110-112 | Two times at the same instant in different zones are Equal, yet `=` does not match them, because Go's `==` compares the zone too. |
| Filters.MatchesEmpty | filter_query.go:96-109 | The intended evaluator: the empty `and` matches and the empty `or` does not. |
| Filters.MatchesCrossKind | filter_query.go:110-114 | The intended evaluator: a literal of another kind never matches. |
| Filters.MatchesAgreesOnIdentical | filter_query.go:110-114 | On an identical operand, except time with `>`, the source and the intended evaluator agree. |
| Filters.AgeExampleAsWritten | filter_query.go:95-116 | As written, `age >= 18` does not match age 30, and neither does `age >= 18 and age < 65`. |
| Filters.AgeExampleIntended | filter_query.go:95-116 | As intended, age 30 matches both, and age 70 is outside 18..65. |
| Filters.EncodeList | filter_query.go:61-75 | A list of conditions encodes to a list of the same length. |
| Filters.EncodeListAt | filter_query.go:61-75 | Element k of the encoded list is condition k, encoded. |
| Filters.EncodeKeys | filter_query.go:61-75 | The payload is an object that always has `v`. It has `f`, `o` and `c` exactly when those fields are non-empty, and no other keys. |
| Filters.MarshalJSON | filter_query.go:61-75 | The payload built key by key is the encoding. |
| Filters.DecodeLiteral | filter_query.go:52-55 | A decoded literal is nil, a bool, a float64, a string, or a composite array or object; in particular it is a string, a bool, or a value without an attribute kind. |
| Filters.DecodeList | filter_query.go:39-44 | A decoded list has one condition per element. |
| Filters.DecodeListAt | filter_query.go:39-44 | Each condition of a decoded list is what UnmarshalJSON makes of that element on a zero Condition, with no error. |
| Filters.UnmarshalJSON | filter_query.go:24-59 | The receiver and error the method leaves are the specified decoding. A payload that is neither an object nor `null`, or whose `f`, `o` or `c` is neither a string nor `null`, is refused with the receiver untouched. Otherwise `f`, `o` and `c` are copied, an absent or `null` one as the empty string; a `null` payload thus empties all three. `and`/`or` clear the field and decode `v` as a list. Comparisons decode `v` as a literal (a number out of float64's range is not refused; see Left out). Other operators keep the old value. |
| Filters.FirstErrorStops | filter_query.go:39-43 | Decoding a list stops at its first bad element. |
| Filters.ParseEncoded | filter_query.go:26-34 | Reading an encoded condition's payload gives back its field, operator, value and collection. |
| Filters.RoundTrip | filter_query.go:24-75 | Decoding the encoding of a condition in wire form gives the condition back, with no error. |
| Filters.RoundTripList | filter_query.go:39-44 | Decoding an encoded list of wire-form conditions gives the list back. |
| Filters.IntegerLiteralComesBackFloat | filter_query.go:52-55 | An integer literal comes back from the wire as a float, not as an integer of its kind; the model's float is the exact value. |
| Filters.WireNumberNeverMatches | filter_query.go:52-55 | A decoded number literal never matches a resource whose attributes hold attribute kinds. |
| Text.LessTrichotomy | filter_query.go:158-165 | The string order used by checkStr (code-point order, which is Go's byte order on valid UTF-8) is a strict total order. |
| Text.Split | registry.go:90 | Split gives one more part than separators, and no part holds the separator. |
| Registries.TypeNameIsIdTag | registry.go:50-54 | The type's name is the `api` tag of the field called ID. |
| Registries.BuildAttrsKeys | registry.go:58-81 | The attribute names are exactly the names of the `attr` fields. |
| Registries.BuildAttrsLastWins | registry.go:58-81 | Under a name sits the attribute of the last `attr` field with that name. |
| Registries.BuildRelsKeys | registry.go:83-121 | The relationship names are exactly the names of the fields whose tag contains `rel,`. |
| Registries.BuildRelsLastWins | registry.go:83-121 | Under a name sits the relationship of the last such field with that name. |
| Registries.AttrRecordsGoType | registry.go:72-77 | The Go type name of an attribute's field prints back from the kind and nullability the attribute records. |
| Registries.MakeRelShape | registry.go:88-117 | A relationship is named by its json tag, or else the Go name. It is to-one iff the Go type is `string`. It is owned by the type being registered, starts with InverseToOne false, and targets the tag's second part. |
| Registries.RelTagTarget | registry.go:88-96 | `rel,T` targets T and names no inverse. |
| Registries.RelTagInverse | registry.go:88-96 | `rel,T,I` targets T with inverse I. |
| Registries.RelTagExtraPart | registry.go:90-96 | `rel,T,I,X` still targets T but loses its inverse. |
| Registries.CheckedRel | registry.go:145-153 | Check changes only InverseToOne. When the target has the named inverse, InverseToOne becomes that inverse's ToOne. Otherwise the relationship is unchanged. |
| Registries.RelErrorsMeaning | registry.go:140-148 | TargetNotRegistered is reported iff the target is not registered. InverseNotFound is reported iff an inverse is named and the target lacks it, a missing target included. No errors iff neither holds. |
| Registries.CheckRel | registry.go:140-154 | One round of the inner loop gives the checked relationship and its errors. |
| Registries.CheckRels | registry.go:140-155 | The inner loop leaves the checked relationships of the type. The multiset of its errors is the type's errors, whatever order the map is ranged in. |
| Registries.CheckedSameShape | registry.go:148-157 | Check keeps what its lookups in other types read: the type names, each type's relationship names and their ToOne. |
| Registries.CheckedTwice | registry.go:134-161 | A second Check leaves the catalogue as the first left it. |
| Registries.CheckIdempotent | registry.go:134-161 | A second Check gives the same catalogue and the same multiset of errors. |
| Registries.CheckCleanIff | registry.go:134-161 | Check reports nothing iff every relationship has its target registered and its named inverse present. |
| Registries.CheckReportsEveryRel | registry.go:139-155 | Every error of every relationship is among those Check reports. |
| Registries.Registry.constructor | registry.go:18-23 | A new registry is empty. |
| Registries.Registry.RegisterType | registry.go:25-132 | A name already registered is refused and changes nothing. Otherwise exactly that name gains the type built from the fields, and every other entry is unchanged. |
| Registries.Registry.Check | registry.go:134-161 | The catalogue becomes the checked catalogue. The multiset of errors is the union over all types and relationships of the original catalogue. |
| Registries.Registry.Resource | registry.go:163-170 | A registered name gives its type. Any other name gives TypeNotRegistered. |
| Registries.Registry.Collection | registry.go:172-181 | Succeeds iff the name is registered, then with its type. Otherwise it gives TypeNotRegistered. |
| Identifiers.IdentifiersOfAt | identifiers.go:6-17 | Building identifiers keeps the length, and element k pairs the type with the k-th id. |
| Identifiers.IdsOfAt | identifiers.go:23-31 | Projecting keeps the length, and element k is the k-th identifier's id. |
| Identifiers.IdsRoundTrip | identifiers.go:6-31 | Projecting the identifiers built from a list of ids gives the list back. |
| Identifiers.NewIdentifiers | identifiers.go:6-17 | The append loop builds one identifier per id, in order, each with the given type. The empty list gives the empty list. |
| Identifiers.IDs | identifiers.go:22-31 | The append loop returns each identifier's id, in order, with the same length. |
| Fixtures.Type1Clean | jsonapi_test.go:287-312 | Every relationship of type1 draws no error in the test schema. |
| Fixtures.Type2Clean | jsonapi_test.go:315-338 | Every relationship of type2 draws no error in the test schema. |
| Fixtures.FixturePassesCheck | jsonapi_test.go:195-204 | The schema getSchema builds from type1 and type2 passes Schema.Check with no errors. |
| Fixtures.OneWayInverseAcceptedByRegistryOnly | registry.go:145-151 | An inverse that exists but does not point back passes Registry.Check, while Schema.Check reports InverseNotMutual for it. |

## Left out

- Filters.FilterResource: requires every child of an `and`/`or` to be free of runtime faults. The source only faults on children it reaches before the loop exits early, so this precondition asks more than the source does.
- Filters.FilterResource: children are a `seq<Condition>`. In the source, `and`/`or` assert `[]*Condition`, so a condition produced by `UnmarshalJSON`, which stores `[]Condition`, would fault there. The model ignores that mismatch.
- Filters.FilterResource: Go `==` between two uncomparable values (two `[]string`, or two slices or maps from encoding/json) is a runtime fault. The model excludes it through the `Safe` precondition instead of modelling the fault.
- Schemas.Schema.RemoveType: requires that no entry before the last has the name. Otherwise the source's loop faults with an index out of range (see Findings).
- Schemas.Schema.AddAttr, RemoveAttr, AddRel, RemoveRel: the per-Type methods are not part of this model. They are parameters returning the new type and its error.
- Registries.Registry.Check: the source writes each checked type into the shared map as it goes. The model writes the finished catalogue back once, after the loop. The lookups into other types read only type names, relationship names and ToOne, which Check keeps (CheckedSameShape), and the relationship being checked keeps its target and inverse name (CheckedRel), so the results are the same.
- Registries.Registry.RegisterType: reflection is not modelled. The checks that the value is a struct or a pointer to one, and the CheckType call, are left out together with their panics; CheckType is not part of this model. A struct is given as its list of field descriptors.
- Registries.Registry.RegisterType: the `fields` list it builds is never used by the source, and is left out.
- Registries.Registry.RegisterType: a field whose Go type is neither `string` nor `[]string` gets to-one false, as in the source. Tag parsing is `reflect.StructTag.Get`, taken as already done.
- Registries.Registry.Resource, Collection: NewSoftResource and WrapCollection are not part of this model. The result is the type the resource or collection is built from, and a panic is an error result.
- Schema.GetResource is not part of this model; it only wraps GetType and NewSoftResource.
- Locking: the registry's `sync.Mutex` is a concurrency concern and is not modelled.
- Error values: errors are datatypes carrying the same names as the source's messages. The message texts are not modelled.
- Time: `Time` is an instant and a zone. Formatting a time for JSON is a parameter function `formatTime`, and time parsing is not modelled.
- JSON: bytes, `json.RawMessage` and encoding/json's case-insensitive key matching are not modelled. Payloads are an abstract JSON value, and keys match exactly.
- Filters.IntegerLiteralComesBackFloat, Filters.DecodeLiteral: a JSON number is an exact real (`JNumber`, `Float`). encoding/json rounds it to the nearest float64, so an integer beyond 2^53 in magnitude comes back as a different value in the source; the model does not capture that rounding.
- Filters.UnmarshalJSON, Filters.Decode, Filters.DecodeList: a JSON number outside float64's range (such as `1e400`) makes encoding/json's ParseFloat overflow. The source then returns an UnmarshalTypeError from filter_query.go:52-55, whether the number is the literal `v`, sits inside an array or object literal, or sits inside a child of `and`/`or`. The model has no float64 range, so it decodes such a number as a `Float` with no error.
- Strings are sequences of Unicode scalar values (Dafny's `char`), while Go strings are byte strings. Byte strings that are not valid UTF-8 cannot be represented, and the order used by checkStr is Go's byte order only on valid UTF-8 (Text.LessTrichotomy, Filters.CheckStrLaws).
- Filters.Encode, Filters.MarshalJSON: encoding is total. The error `json.Marshal` can return at filter_query.go:74 (for instance time.Time's MarshalJSON refusing a year outside 0..9999) is not modelled; the time formatter is a total parameter.
- Filters.UnmarshalJSON: a JSON `null` for the `v` of `and`/`or` gives a nil slice in Go, modelled as an empty child list. Go code that tells the two apart is not modelled.
- Integer widths: `Int` and `Uint` carry their width but are not bounded by it. Every comparison in the source widens to 64 bits first, where no value wraps.
- Empty type name in RegisterType: a struct without an `ID` field registers under the name "". The model keeps this: registry.go itself does not refuse it, and whatever CheckType refuses is left out (see Registries.Registry.RegisterType).

## Findings

| source | as written | input that shows it | evidently intended | confidence | as-written member | corrected member |
|---|---|---|---|---|---|---|
| schema.go:57-59 | The loop ranges over the original length while splicing the slice it indexes, so any match before the last entry ends in an index out of range. | Types [a, b], RemoveType(a.Name) | Remove every entry with the name and return nil. | not executed | Schemas.RemoveTypeFirstOfTwoPanics | Schemas.Removed |
| filter_query.go:96-116 | The `and` loop only returns false early; falling out of the loop reaches `return false`, so `and` never matches. | `{"o":"and","v":[]}` on any resource | `and` matches iff every child matches; the empty `and` matches. | not executed | Filters.AndNeverMatches | Filters.MatchesEmpty |
| filter_query.go:111 | A leaf compares only when the operand is identical to the literal, so `<` and `!=` can never hold, `<=` and `>=` hold only on equality, and `>` holds only for a time operand, whose `>` accepts equal instants (filter_query.go:231). | Resource with age 30, condition age `>=` 18 | Compare the operand with the literal by the kind's table when both have the same kind. | not executed | Filters.AgeExampleAsWritten | Filters.AgeExampleIntended |
| filter_query.go:231 | checkTime's `>` is After or Equal, the same as `>=`. | A time compared with itself by `>` | `>` is After alone. | not executed | Filters.CheckTimeGreaterIsAtLeast | Filters.CheckTimeIntendedLaws |
