# A verified model of grpcmcp

grpcmcp exposes the unary methods of a gRPC backend as MCP tools. This project models the logic
behind its I/O in Dafny and proves what that logic is for. `dafny verify dfyconfig.toml` checks
everything.

| part of the program | modules |
|---|---|
| JSON Schema generator | `Json`, `Bytes`, `JsonSchema` (what a schema accepts), `IntValidation`, `EnumValidation`, `Base64`, `TextValidation`, `Descriptors`, `Generator` |
| what the generated schemas mean | `Meaning`, `ProtoJson`, `Conformance`, `NoFalseRejects`, `StrictMode`, `String64Mode`, `Inlining`, `Chains` (directed graphs) |
| certificate reloader | `CertReloader` |
| descriptor ordering and registration | `ProtoFiles`, `Chains`, `DescriptorOrder` |
| tool names | `ToolNaming` |
| method options on the wire | `Wire`, `OptionScan` |
| building and refreshing the tool set | `ToolRefresh` |

**Form.** Code that fills maps, sets flags in loops or updates fields is a method with loops, or a
class with those fields, and is proved equal to a specification function; the theorems are lemmas
about those functions. The reloader, the sort and the live server are classes. Files that another
process rewrites between the stats and the reads of a reload are a transition system, and the
reloader theorems speak of every run of it.

**Main results.**

- *Generator, all JSON values.* The generated schema accepts a JSON value if and only if the message
  allows it (`SchemaMeans`): `MessageAllows` is a reference definition that names no part of the
  generator and says, for both modes and all options, which objects, members, lists, maps, numbers and
  texts are allowed. Its scalar cases are `IntExact`, `EnumExact`, `StringMeaning` and `BytesMeaning`.
- *Generator, canonical values.* For every message descriptor of the modelled fragment and every value, in both modes and
  with defaults written or not, the schema accepts the canonical ProtoJSON form if and only if the value
  conforms, a condition on descriptor and value without schemas (`CanonicalAccepted`). For a value that
  satisfies its protovalidate rules only a short list of conditions is left (`CanonicalForm`), and
  `NoFalseRejects` names the descriptors for which they always hold. The conditions are needed: nine
  lemmas give rejected inputs.
- *Generator modes.* Strict mode accepts only what lenient mode accepts if and only if additional
  properties are off or no accepted value contains an object of a message type with an alias
  (`RefinesIff`, with `RefinesByDescriptor` as a test on the descriptor alone); string-only 64-bit integers remove exactly the number spelling (`DropsNumbers`).
- *Arithmetic of the generator.* Integer ranges, reversed ones included, are exact if and only if a
  stated condition on the bounds holds (`RangeExactness`); enum ranges are exact and minimal
  (`IntegerRangesExact`); base64 lengths are right if and only if the size is below 2^62
  (`EncodedLengthExact`).
- *Inlining* ends if and only if no chain of message references, outside fields marked
  `jsonschema:ignore`, visits a type twice.
- *Reloader.* If modification times never repeat, matching times mean a matching cache
  (`CacheAgrees`), and a quiet disk with a matching pair is what the next call returns. Every call that
  finishes answers as `CallsFinish` says: after a load that failed, the cached certificate if and only if
  there is one that is unexpired.
- *Ordering.* On any graph and in any map order, a late import lies on a cycle; registration refuses
  nothing if and only if the imports are acyclic and no two files share a name, and without shared
  names the registry ends up with exactly the files from which no cycle is reached.
- *Tools.* A build has a tool for a method if and only if some file declares it, it does not stream, it
  passes the filter and its service is chosen (`ToolsIff`), exactly one if it is declared once
  (`ExposedOnce`), under the shortest of the three forms (`NameTiers`).
- *Names.* Two exposed methods share a tool name if and only if their method names and their qualifiers
  are equal, or one method name spells the qualifier of the other (`NamesClashIff`). The second is
  impossible without two underscores in a row and without a leading one (`SegmentNamesClashIff`); for
  services named without underscores the first means alike names in packages that differ only in dots
  for underscores (`PlainNamesClashIff`).
- *Option scan* tiles the buffer, covers it if and only if it is well formed, and inverts encoding. The
  lookups answer by the first field of their number and type, with the value as it was written
  (`HasOptionWritten`, `OptionStringWritten`).
- *Refresh.* An attempt takes effect if and only if the build succeeds and does not empty a live set
  (`RefreshTakesEffect`). Over any run the live set is one complete build and never becomes empty; a build keeps
  every exposed method if and only if no two clash (`BuildHasAllMethods`).

**Where the code departs from its documentation**, the code is modelled, and a lemma shows the
departure:

- The program's README.md (line 87) says that tool names stay unique.
  With underscores in package names they can clash (`UnderscoresClash`, and exactly when by
  `NamesClashIff`), and with two underscores in a row in a method name as well (`DoubleUnderscoreClash`).
- protovalidate calls a range reversed when its upper bound is below its lower bound. The generator
  also reverses some ranges with equal bounds, and drops an unsigned `gt` above 2^53-1 when it
  reverses; `RangeExactness` says exactly when this matters.
- A 64-bit rule can still emit a lower bound above 2^53-1 (`EmittedBounds`).
- `len_bytes` takes its maximum from `max_bytes` (`LenBytesRejects`), map keys of type bool get a
  boolean schema for names, which are strings (`BoolKeyRejects`), and a maximal byte length overflows
  exactly from 2^62 on (`MaxLenExact`, `OversizedMaxLenRejects`).
- Rules of list items, map keys and map values are emitted although their own `ignore` says that they do
  not count (`IgnoredItemRejects`), and so are the rules inside a message field that is ignored
  (`IgnoredMessageRejects`).
- An enum whose rules leave no declared value gets an empty anyOf, which JSON Schema does not allow
  (`EmptyBranchesIff`).
- Strict mode with additional properties accepts values that lenient mode rejects
  (`AdditionalBreaksRefinement`, `AliasExample`, and exactly when by `RefinesIff`).
- The comment on strict mode (buf/jsonschema.go:112-113) says that ProtoJSON output with defaults written
  is valid there. The canonical string of a 64-bit integer never is (`StrictRejectsWideText`), and a
  required hidden field makes everything invalid (`HiddenRequiredRejectsAll`); `CanonicalForm` says
  exactly what is.

## Model

| member | source | states |
|---|---|---|
| IntValidation.GenerateConstIn | buf/jsonschema.go:706-712 | there is an enumeration iff there is a const or in, and for every JSON value it holds that value iff it is an integer they list, const alone if there is one |
| IntValidation.DetectReversed | buf/jsonschema.go:737-743 | the nested switches find a range to be reversed exactly when the bounds are, for all combinations of gt/gte and lt/lte |
| IntValidation.Assemble | buf/jsonschema.go:788-814 | bare number schema in strict mode, otherwise anyOf of the number branches and the digit-string branch |
| IntValidation.GenerateInt | buf/jsonschema.go:714-815 | the imperative signed generator refines the one specification of an integer rule |
| IntValidation.GenerateUint | buf/jsonschema.go:869-955 | the imperative unsigned generator refines the same specification, with zero as floor and its own clamps |
| IntValidation.GenerateIntField | buf/jsonschema.go:840-867 | string-only form, rules, or plain schema, in this order of priority |
| IntValidation.RuledMeaning | buf/jsonschema.go:714-815 | for any JSON value: accepted iff it is an integer in one of the ranges or the enumeration, or, outside strict mode, a digit string |
| IntValidation.IntExact | buf/jsonschema.go:714-1003 | for every type, mode, option, rule set and JSON value: accepted iff it is a number that const or in, the bounds, crossing or not, the type and the safe range admit, or a digit string of the right sign where strings are taken |
| IntValidation.RangeExactness | buf/jsonschema.go:734-786 | with no const or in, the branches accept exactly the integers the rule allows, over all 32-bit or all JSON-safe 64-bit integers, iff the bounds are not a degenerate equal pair and no unsigned gt was dropped |
| IntValidation.SatisfyingAccepted | buf/jsonschema.go:714-815 | without any such condition, an integer that satisfies its rules is never rejected |
| IntValidation.EmittedBounds | buf/jsonschema.go:725-786 | no lower bound below -(2^53-1) and no upper bound above 2^53-1 is ever emitted; a lower bound above 2^53-1 is emitted iff the rule has one that is not dropped |
| EnumValidation.Select | buf/jsonschema.go:584-618 | after the zero, const, in and not_in passes a value is marked removed iff it does not survive all four |
| EnumValidation.Collect | buf/jsonschema.go:622-636 | the numbers, offered names and hidden name patterns are those of the surviving values, in order |
| EnumValidation.EmitRanges | buf/jsonschema.go:674-683 | the coalescing loop emits the maximal runs of the sorted numbers, with no 32-bit overflow in last+1 |
| EnumValidation.GenerateEnumInt32 | buf/jsonschema.go:667-685 | sort, compact and coalesce together append the ranges of the given numbers after the branches already there |
| EnumValidation.CoalesceCovers | buf/jsonschema.go:674-683 | the ranges cover exactly the sorted input and no two of them touch |
| EnumValidation.SeparatedIsMinimal | buf/jsonschema.go:667-685 | ranges that do not touch are as few as any cover of the same integers |
| EnumValidation.IntegerRangesExact | buf/jsonschema.go:667-685 | for any list of numbers, the emitted ranges cover exactly that set, are sorted and apart, and are minimal in number |
| EnumValidation.GenerateEnum | buf/jsonschema.go:570-665 | the whole imperative generator refines the specification of an enum schema |
| EnumValidation.EnumMeaning | buf/jsonschema.go:570-665 | a string is accepted iff it names a surviving declared value; an integer only in lenient mode, and with defined_only, const or in iff it is the number of a surviving value, aliases and the hidden zero included |
| EnumValidation.EnumExact | buf/jsonschema.go:570-665 | the same by the rules themselves: a name is accepted iff a declared value of that name satisfies the rules and is not a forbidden zero; an integer outside strict mode iff it is one of those, or any 32-bit number when nothing restricts it |
| EnumValidation.OfferedIff | buf/jsonschema.go:625-636 | a name is offered iff a declared value of that name satisfies the rules and is neither ruled out nor a hidden zero, and is accepted by a pattern alone iff it is a hidden zero |
| EnumValidation.EmptyBranchesIff | buf/jsonschema.go:620-662 | the schema is an empty anyOf iff no declared value survives and integers are left out or restricted to survivors |
| Base64.Base64EncodedLength | buf/jsonschema.go:1412-1422 | the two results in 64-bit arithmetic, wrap-around of the product included |
| Base64.EncodedLengthExact | buf/jsonschema.go:1412-1422 | the results are the unpadded length and the padding of section 4 of RFC 4648, together 4 times the ceiling of n/3, iff n < 2^62; padding is at most 2 |
| Base64.DecodeEncode | buf/jsonschema.go:1424-1449 | the modelled RFC 4648 encoder is inverted by its decoder on every byte string, so the length bounds speak of a real encoding |
| Base64.EncodeLength | buf/jsonschema.go:1412-1422 | every encoding is its digits plus its padding and a multiple of four long |
| Base64.EncodeMatches | buf/jsonschema.go:1427 | every encoding matches the emitted pattern |
| Base64.LowerLength | buf/jsonschema.go:1428-1437 | for every 64-bit `low`, at least `low` bytes encode to at least the emitted minLength, padded or not, wrapped or not |
| Base64.UpperLength | buf/jsonschema.go:1438-1441 | at most `high` bytes encode to at most the emitted maxLength, padded or not |
| Base64.UpperLengthIff | buf/jsonschema.go:1438-1441 | the emitted maximum holds of the texts of all byte strings up to `high` iff `high` is below 2^62 |
| TextValidation.GenerateBool | buf/jsonschema.go:551-562 | required without presence, or const, restrict the boolean as specified |
| TextValidation.BoolMeaning | buf/jsonschema.go:551-562 | a boolean schema accepts exactly the booleans that its rule, or being required, allows |
| TextValidation.GenerateString | buf/jsonschema.go:1354-1410 | for every JSON value the generated schema accepts it iff it is a string of the length that len, or min_len or required, and max_len or the byte bounds admit, and that const or in lists |
| TextValidation.StringMeaning | buf/jsonschema.go:1354-1410 | a string schema accepts exactly the strings that the field admits, lengths and lists on both sides |
| TextValidation.StringExact | buf/jsonschema.go:1354-1410 | a string that satisfies its rules is accepted iff it is not one of the two trapped cases: an empty required string, or a nonempty string under len_bytes alone |
| TextValidation.GenerateBytes | buf/jsonschema.go:1424-1449 | for every JSON value the generated schema accepts it iff it is base64 text within the computed lengths of len, or of min_len or required, and of max_len |
| TextValidation.BytesMeaning | buf/jsonschema.go:1424-1449 | a bytes schema accepts exactly those texts |
| TextValidation.BytesExact | buf/jsonschema.go:1424-1449 | for rules of any 64-bit sizes, the encoding of a byte string that satisfies them is accepted iff it is neither an empty required one nor too long for a wrapped maximum |
| TextValidation.MaxLenExact | buf/jsonschema.go:1438-1441 | under max_len alone, all byte strings that satisfy it are accepted iff it is below 2^62 |
| TextValidation.OversizedMaxLenRejects | buf/jsonschema.go:1438-1441 | counterexample: with max_len 2^62 a four-byte string is rejected |
| Generator.AddFieldProperties | buf/jsonschema.go:344-376 | a visible field adds one property under its primary name; the aliases are its other names, or all of them when hidden |
| Generator.GenerateElem | buf/jsonschema.go:440-480 | the dispatch on the kind refines the element specification, with nested messages inlined |
| Generator.GenerateField | buf/jsonschema.go:414-483 | lists, maps and singular fields refine the field specification, with rules taken from the right level |
| Generator.GenerateMessage | buf/jsonschema.go:295-342 | the loop over fields produces properties, patternProperties, required and additionalProperties of the message specification |
| Generator.MessageMeaning | buf/jsonschema.go:295-342 | a message schema accepts exactly the objects with every required name and only members that are acceptable one by one |
| Generator.MemberMeaning | buf/jsonschema.go:311-334 | a member under a name of a field is judged by that field's schema alone, or is additional when the mode does not take that name |
| Generator.UnknownMemberMeaning | buf/jsonschema.go:328-334 | a member under no field's name is accepted iff additional properties are on |
| Meaning.SchemaMeans | buf/jsonschema.go:295-342 | for every message, both modes, all options and every JSON value: accepted iff the message allows it, by names, presence, rules and nesting, said without any part of the generator |
| Meaning.FieldMeans | buf/jsonschema.go:414-483 | the same for one field: singular, list with its limits, or map with its keys and values |
| Meaning.MemberMeans | buf/jsonschema.go:311-334 | the same for one member of an object: by the field that goes by its name, or additional |
| Meaning.OffersIff | buf/jsonschema.go:344-376 | the properties are the first names of visible fields, and the patterns, outside strict mode only, the second names and all names of hidden fields |
| Conformance.CanonicalAccepted | buf/jsonschema.go:295-342 | for every descriptor, mode, style of writing and value, whether or not it satisfies its rules: the schema accepts the canonical form iff the value conforms, which is said without schemas |
| Conformance.LeafAccepted | buf/jsonschema.go:440-460 | the same for every scalar kind: bool, enum, integer, string and bytes |
| Conformance.KeyAccepted | buf/jsonschema.go:462-472 | the same for map keys, which are written as strings |
| Conformance.RequiredMember | buf/jsonschema.go:311-318 | a name that the schema asks for is there iff its field is written, under that name |
| NoFalseRejects.CanonicalForm | buf/jsonschema.go:295-342 | for every descriptor, with ignore rules of fields, items, keys and values, in both modes and every style of writing, and every value satisfying its rules, through lists, maps and nested messages: the schema accepts the canonical form iff the value is expressible |
| NoFalseRejects.NoFalseRejects | buf/jsonschema.go:414-483 | for every faithful descriptor, in either mode, no value that satisfies its rules is rejected |
| NoFalseRejects.LenBytesRejects | buf/jsonschema.go:1362-1363 | counterexample: a string of the right len_bytes is rejected |
| NoFalseRejects.BoolKeyRejects | buf/jsonschema.go:462-472 | counterexample: an entry of a map with bool keys is rejected |
| NoFalseRejects.OtherNameRejects | buf/jsonschema.go:311-318 | counterexample: a required field under its other name is rejected |
| NoFalseRejects.UndeclaredNumberRejects | buf/jsonschema.go:603-610 | counterexample: an undeclared number that `in` lists is rejected |
| NoFalseRejects.IgnoredItemRejects | buf/jsonschema.go:427-437 | counterexample: an item whose rules are to be ignored is rejected by them |
| NoFalseRejects.IgnoredMessageRejects | buf/jsonschema.go:485-494 | counterexample: a message field that is to be ignored is rejected by the rules inside |
| NoFalseRejects.StrictRejectsWideText | buf/jsonschema.go:112-113 | strict mode rejects the canonical string of every 64-bit integer, under any rules |
| NoFalseRejects.HiddenRequiredRejectsAll | buf/jsonschema.go:311-334 | a hidden field that strict mode requires makes the schema accept nothing when additional properties are off |
| StrictMode.Refines | buf/jsonschema.go:92-114 | a value with safe integers that strict mode accepts, lenient mode accepts, for all nesting, if additional properties are off or no object in it is of a message type with an alias |
| StrictMode.AdditionalBreaksRefinement | buf/jsonschema.go:328-334 | otherwise setting the alias in such an object to null, as a new member or in its place, at any depth through fields, lists and maps, gives a value that strict mode accepts and lenient mode rejects; unique names and safe integers stay so |
| StrictMode.RefinesIff | buf/jsonschema.go:92-114 | over all JSON values with unique names and safe integers, strict refines lenient iff additional properties are off or no strictly accepted value contains an object of a message type with an alias |
| StrictMode.RefinesByDescriptor | buf/jsonschema.go:311-334 | refinement holds if additional properties are off or no message type reached through fields that are not ignored has an alias |
| StrictMode.AliasExample | buf/jsonschema.go:328-334 | counterexample: null under the JSON name of an optional field is accepted in strict mode only |
| StrictMode.PlainWideIntegers | buf/jsonschema.go:847-858 | strict mode accepts every 64-bit integer, lenient mode exactly the safe ones, so safe integers are needed |
| String64Mode.DropsNumbers | buf/jsonschema.go:840-846 | with the option a value is accepted iff it is accepted without it and every 64-bit position at any depth holds a string |
| Inlining.TerminatesIffAcyclic | buf/jsonschema.go:303-305 | inlining of a type ends, within as many levels as there are types, iff no chain of references from it, skipping fields marked jsonschema:ignore, visits a type twice |
| Inlining.IgnoredFieldUnseen | buf/jsonschema.go:303-305 | a field marked jsonschema:ignore, of whatever type, leaves no trace in the schema of its message |
| Inlining.UnfoldsFields | buf/jsonschema.go:461-480 | inlining keeps every field as it is described and puts the message in place of its element only |
| Inlining.InlinedAlone | buf/jsonschema.go:461-480 | the schema at a message field, list item or map value is the schema of that type generated alone |
| Inlining.MoreDepth | buf/jsonschema.go:1451-1458 | a type that has been inlined completely does not depend on how deep generation could go |
| CertReloader.Reloader.constructor | tls.go:90-91 | a new reloader holds nothing and has logged nothing |
| CertReloader.Reloader.NewFailure | tls.go:159-165 | a line equal to the last failure is suppressed; otherwise it is returned and remembered, and nothing else changes |
| CertReloader.Reloader.Reload | tls.go:127-157 | for every observation of stats, reads and clock: unchanged files give the cached certificate; a load gives and caches the new pair, under new times iff both stats succeeded, and announces a new certificate; a failed load gives the cached certificate iff it is unexpired, otherwise the cause, and logs a line iff it is new |
| CertReloader.Reloader.CertificateCall | tls.go:116-125 | the same, with the message appended to the log iff there is one |
| CertReloader.Reloader.HandshakeCertificate | tls.go:108-114 | a peer gets the certificate or nothing, never the cause |
| CertReloader.NewCertReloader | tls.go:90-96 | there is a reloader iff the first load succeeds, and it then holds that pair |
| CertReloader.InvStep | tls.go:127-157 | every write with a new time, removal, tick and reload sub-step keeps the invariant that links recorded times, values read so far and the disk |
| CertReloader.CacheAgrees | tls.go:131-156 | in every state of every run with unrepeated times: if both recorded times are the current ones, the cache is the pair on disk |
| CertReloader.QuietCallReturnsDisk | tls.go:127-157 | on a quiet disk with a matching pair the next finished call returns and caches it, also when its stats fail and whatever happened before |
| CertReloader.CallsFinish | tls.go:127-157 | in every run each finished call adds exactly these results, loads and failure lines to the trace, and leaves that certificate in the cache |
| CertReloader.FailedLoadServesCache | tls.go:136-145 | in every run a call whose load failed returns the cached certificate iff there is one and now is before its expiry, and otherwise the load error |
| CertReloader.CacheKept | tls.go:136-157 | a cached certificate is never lost |
| CertReloader.ReturnedWasLoaded | tls.go:136-157 | every certificate returned came from an earlier load of a matching pair, and after a failed load is unexpired at that instant |
| CertReloader.NoRepeatedFailure | tls.go:159-165 | between two successful loads no two consecutive failure lines are equal |
| CertReloader.ReadOtherCertificate | tls.go:128-136 | a write between stat and read leaves new content in the cache under the time of the old |
| CertReloader.RepeatedTimeBreaks | tls.go:131-133 | from every reachable state between calls and for any two different certificates that match the key, a run with one reused time ends with times that match and a cache that differs |
| DescriptorOrder.CollectFiles | grpcmcp/server.go:129-137 | the collection holds exactly the paths of the responses, and under each the last descriptor of that path |
| DescriptorOrder.KeepResponse | grpcmcp/server.go:134-136 | the same for one response on top of those before it |
| DescriptorOrder.Sorter.TopSort | grpcmcp/server.go:363-379 | from any reachable state, cyclic imports included, the walk ends and keeps the order invariant or names an import that is missing |
| DescriptorOrder.SortFiles | grpcmcp/server.go:144-151 | for every enumeration order, sorting succeeds iff every import of every file was collected, and the result holds each file once in order |
| DescriptorOrder.LateImportIsCycle | grpcmcp/server.go:363-379 | an import that comes at or after its file lies on a common cycle with it |
| DescriptorOrder.BuildRegistry | main.go:146-158 | the registry loop is the fold that skips files with unresolved imports, known paths or names already taken |
| DescriptorOrder.RegistryTurn | main.go:146-158 | in any list a file enters the registry iff its imports are in it, its path is not, and it shares no name with a file that is |
| DescriptorOrder.RegistersExactlyAcyclicPart | main.go:146-158 | after a sort a registered file never leads in a circle by its imports; if no two files share a name, the registered files are exactly those, whatever the map order was |
| DescriptorOrder.NeverRefusedIffAcyclic | grpcmcp/server.go:185-195 | registration refuses no file iff the imports are acyclic and no two files share a name, and then registers every file in order |
| ToolNaming.BuildToolNamer | main.go:106-144 | for every order of the registry, the namer gives the name specified by the registry alone |
| ToolNaming.CountServices | main.go:111-136 | only selected services that expose a method are counted by simple name |
| ToolNaming.CountMethods | main.go:118-129 | `exposed` iff some method streams in neither direction and passes the filter; the names of exactly the exposed methods are counted on top |
| ToolNaming.ExposedIff | main.go:113-126 | a method is exposed iff it is in some file, streams in neither direction, passes the filter, and the selection is empty or has the dotted full name of its service |
| ToolNaming.ExposedOnce | main.go:113-126 | where services and methods are declared once, no method is exposed twice |
| ToolNaming.NameTiers | main.go:93-101 | the name is the method alone iff no other exposed method has it, else service__method iff no other service of that simple name exposes a method, else the full name with dots as underscores |
| ToolNaming.OrderIrrelevant | main.go:110 | both counts are those of any permutation of the files |
| ToolNaming.NamesClashIff | main.go:93-101 | for any packages, services and method names, of identifiers without dots: two exposed methods get one name iff method names and qualifiers are equal or one method name spells, before the other, what that has more in front |
| ToolNaming.SegmentNamesClashIff | main.go:93-101 | for method names without a double or leading underscore: iff method names and qualifiers are equal, the qualifier being the flat full name where simple names collide and the simple name elsewhere |
| ToolNaming.PlainNamesClashIff | main.go:93-101 | for service names without underscores: iff method and service names are equal and the packages differ only in dots for underscores, whichever of the three forms either has |
| ToolNaming.NamesInjective | main.go:93-101 | without underscores in packages either, two exposed methods that differ in service or method name get different names, across the three forms and with empty packages |
| ToolNaming.BareNameWhenUnique | main.go:94-96 | a bare method name is used iff no other exposed method has it |
| ToolNaming.UnderscoresClash | main.go:100 | counterexample: a_b.S and a.b.S get the same tool name |
| ToolNaming.DoubleUnderscoreClash | main.go:97-98 | counterexample: a method S__M and the method M of service S get the same tool name |
| Wire.ValueComplete | main.go:161-167 | every value the grammar of the Protocol Buffers Encoding specification allows, nested groups included, is consumed to its end whatever follows |
| Wire.ValueSound | main.go:161-167 | whatever is consumed is a value of that grammar |
| Wire.GroupComplete | main.go:161-167 | a group is consumed up to and with its own end tag |
| Wire.GroupSound | main.go:161-167 | a consumed group is a list of valid fields and the matching end tag |
| OptionScan.SkipNextField | main.go:161-167 | the rest is what follows the one value of the grammar at the start of the buffer; there is none iff the buffer starts with no value of that wire type |
| OptionScan.FieldText | main.go:226-230 | the payload behind the length prefix if it is UTF-8, otherwise empty |
| OptionScan.ReadField | main.go:188-201 | one round: the next field with its tag and value slices, or a stop |
| OptionScan.MethodOptionFields | main.go:177-208 | the loop yields exactly the fields of the scan and ends, each round consuming at least one byte |
| OptionScan.ScanTiles | main.go:187-206 | for every byte string, the yielded slices are consecutive from offset 0 and the unread rest follows |
| OptionScan.CoversIffWellFormed | main.go:187-206 | the whole buffer is covered iff it is a sequence of valid fields |
| OptionScan.RoundTrip | main.go:187-206 | scanning the encoding of any list of fields gives that list back |
| OptionScan.HasMethodOption | main.go:210-218 | true iff there is a first varint field of that number among the scanned fields and its value is expected |
| OptionScan.HasOptionWritten | main.go:210-218 | over fields written one after the other: the first varint of that number decides, by the value that was written |
| OptionScan.HasOptionAbsent | main.go:210-218 | without such a field the answer is false |
| OptionScan.GetMethodOptionString | main.go:223-234 | the payload of the first length-delimited field of the number if it is UTF-8, otherwise empty |
| OptionScan.OptionStringWritten | main.go:223-234 | over fields written one after the other: the text that was written in the first length-delimited field of that number if it is UTF-8, otherwise empty |
| OptionScan.OptionStringAbsent | main.go:223-234 | without such a field the text is empty |
| OptionScan.FoundValueParses | main.go:213-226 | a yielded value parses again in full, so the errors both lookups discard cannot occur |
| OptionScan.LookupIgnoresSuffix | main.go:210-234 | once there is a match, no suffix, malformed or not, changes either answer |
| OptionScan.LookupSkipsOthers | main.go:210-234 | a field of another number or wire type in front changes nothing |
| ToolRefresh.MethodTools | grpcmcp/server.go:204-254 | a tool for each method of one service that streams in neither direction and passes the filter, and for no other, in order, each under its name |
| ToolRefresh.ServiceTools | grpcmcp/server.go:196-255 | the same for all selected services of a file |
| ToolRefresh.Tools | grpcmcp/server.go:168-259 | the build fails iff there are no files or one is refused, for imports or for names; otherwise it has a tool for exactly the methods of the files that do not stream, pass the filter and are of a chosen service |
| ToolRefresh.ToolsIff | grpcmcp/server.go:196-255 | the same of every build |
| ToolRefresh.NewServer | grpcmcp/server.go:155-163 | there is a server iff the first build succeeds, and it holds that build |
| ToolRefresh.Server.SetTools | refresh.go:69 | the whole set is replaced by the given tools, a later tool winning over an earlier one of its name |
| ToolRefresh.LastOfNameWins | refresh.go:69 | a tool is in the set under its name unless a later one has that name |
| ToolRefresh.Server.RefreshTools | refresh.go:34-71 | if reflection and the build succeed and the build is not empty over a counted set, the live set becomes the build and its length is returned; in every other case the set is unchanged and there is an error |
| ToolRefresh.Server.RefreshLoop | main.go:475-498 | set and count after any sequence of ticks are those of the run of the specification |
| ToolRefresh.RefreshTakesEffect | refresh.go:34-71 | after a run that ends in an attempt: the new build and its length, iff it was built and is not empty in place of a set that is not; otherwise set and count from before |
| ToolRefresh.LiveIsOneBuild | refresh.go:34-71 | over any run of failed, empty and successful refreshes the live set is one complete build, of the first files or of the last applied |
| ToolRefresh.CountZeroWhenEmpty | main.go:475-498 | over any run the count is zero iff the live set is empty |
| ToolRefresh.NeverEmptied | refresh.go:61-67 | a live set that is not empty at some point of a run is never empty after |
| ToolRefresh.SizeIffDistinct | refresh.go:69 | replacing the set loses no tool iff their names are distinct |
| ToolRefresh.BuildHasAllMethods | grpcmcp/server.go:180-259 | with distinct paths, the build's set has as many entries as there are exposed methods iff no two clash, and then each is found under its name |
| ToolRefresh.CountIsSize | main.go:475-498 | over any run in which no two exposed methods clash the count is the size of the live set, which holds exactly the exposed methods |
| ToolRefresh.SortedFilesBuild | grpcmcp/server.go:168-195 | a sorted collection builds iff it is not empty, its imports are acyclic and no two files share a name, whatever the map order |

## Left out

- Float and double schemas, with infinities and NaN.
- Generators for well-known types. They run only for a root message; nested ones are inlined as plain objects, which is the modelled path.
- The generator's cache of schemas by type, `$ref` and bundling; the reference list is never filled in this program.
- Titles, descriptions and defaults: they constrain nothing.
- Regex string rules (prefix, suffix, contains, pattern, well-known formats). The patterns that the modelled code emits are modelled by what they match, and name patterns as lists of names, so names with regex metacharacters are not covered.
- Rules that emit no keyword for the modelled types (not_in on integers, unique, min_pairs and max_pairs), as far as the schema goes.
- An empty anyOf is taken to accept nothing.
- Schema maps are values in the model. In the program one map is shared by a field's property and its alias pattern; it is not changed after that.
- NoFalseRejects.CanonicalForm: field names that collide are excluded. `ignore: IGNORE_IF_ZERO_VALUE` is taken to drop the rules, required included, of a field that is not populated or of a zero item, key or value, and to change nothing for a field with presence that is set; `IGNORE_ALWAYS` is taken to drop the rules inside a message too.
- NoFalseRejects.NoFalseRejects: its conditions on the descriptor suffice; the exact condition on descriptor and value is in `CanonicalForm`.
- CertReloader.RepeatedTimeBreaks: covers one reused time of the certificate file; which repeated times are harmless is not characterised.
- X.509 and PEM parsing: a pair loads if and only if the key belongs to the certificate. The file path and the date format in log lines are left out, and times are integers.
- Certificate calls run one at a time, as the mutex makes them; log lines are written after the mutex is released, so the order in which concurrent handshakes write them is not modelled.
- Registration refuses a file for unresolved imports and for names shared with a registered file; other checks of the descriptor library, on a single descriptor, are not modelled.
- The wire parser, sorting and the UTF-8 check belong to libraries; they are modelled from the Protocol Buffers Encoding specification and RFC 3629. Options enter as their encoded bytes, which are empty when there are none.
- ToolRefresh.Server.SetTools: also stands for adding the tools to a new server; that readers see the replacement at once is assumed.
- Reflection enters the refresh as its outcome; the stream, its timeout and the ticker are not modelled.
- HTTP, SSE and stdio serving, calls to the backend, headers, flags, origin checks, tool annotations, tool descriptions and the input schema attached to each tool.
- The example backend.
