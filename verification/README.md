# MParser: a verified model

This project models, in Dafny, the self-contained algorithms of the MParser
runtime and its tools, and proves what they are for. The parts are independent:

- **Equality of value graphs.** `RuntimeValues` is the runtime's value graph:
  finite values whose leaves point into shared stores that may be cyclic.
  `Bisimulation` says what equality of such graphs means, `Comparison` is the
  recursive comparison with its two visited sets, and `Benchmark` is the chain
  of comparisons between four runtimes. `EqualityMeaning` and
  `SharedEquality` say what that equality comes to on each kind of value, and
  `ComparisonLimits` where it is not what one might expect.
- **The machine protocol.** `JsonWriters` is the streaming writer, proved against
  a state machine (`WriterStates`) over partial documents (`JsonText`) with
  their own parser; `JsonStrings` and `Utf8` are the string escaper and its UTF-8
  recogniser. `MachineProtocol`, `ProtocolWalk` and `ProtocolResults` are the
  recursive walk over runtime values, `DiagnosticCauses` the one over causes;
  `DocumentReader` reads the format on its own terms, and `ProtocolContents`,
  `ProtocolReading` and `CauseReading` show that it gets back what was written.
- **The C boundary.** `Layout` and `ColumnMajorArrays` are the index arithmetic
  between column-major hosts and row-major storage; `ModuleSearch`,
  `ModulePaths`, `Ownership` and `ValueHandles` are the protocol that keeps module-bound values inside their
  module or runtime, down to the last bound value inside a bound one; `DebugScope`
  is the debugger's single-execution rule as a state machine over interleaved
  threads; `SharedHandles` is the reference counting of the C++ wrappers.
- **The baseline tool.** `Sha256` is the streaming digest against FIPS 180-4, whose
  constants and examples are in `Sha256Constants` and `Sha256Examples`;
  `WindowsArguments` is the command-line quoting against the reading rules of
  "Parsing C command-line arguments" in the Microsoft C documentation.
- **Compilation.** `MethodFiles`, `MethodFileResults`, `MethodFileOrder` and
  `MethodFileVerdicts` attach separately written methods to their classes; `DefinitionDirectory` builds the
  directory of definitions.
- **Execution.** `SourceStorage` is the binding of global and persistent variables;
  `ConsoleInput` is the line-assembling input source.

A method with a loop, or one that changes fields, is imperative as in the
source and is proved against a function or a predicate of its inputs; the
lemmas are about those. Errors of the source are results here: a `bool`, an
`Option` or a status. `std::string` is a Dafny string whose characters stand
for bytes; `size_t` is 64 bits wide.

## What the code does that its description does not say

- Equality is symmetric and transitive but not reflexive: a value holding a NaN
  is not equal to itself. Four runtimes that all produce NaN never "match"
  (`ComparisonLimits.SelfEqualIff` is the exact condition).
- Objects are compared by their fields only. Scalar dates and durations keep their
  instant elsewhere, and so do metadata descriptors their identity and enumeration
  values their member: any two of them of one class and shape are equal
  (`ComparisonLimits.OnlyFieldsAreCompared`).
- The comparison terminates because the value contract makes every handle object
  keep its fields in a shared map. On a graph that breaks this rule it can recurse
  for ever (`ComparisonLimits.UnsharedHandlesCanDiverge`; `DivergesIff` says on
  which).
- A quoted program name is not read back like other arguments: one with a quote
  character, or one that needs quoting and ends in a backslash, reaches the child
  changed (`WindowsArguments.RoundTripIff` is exact).
- Declaring a persistent variable twice at script level fails once the variable is
  in the workspace, since nothing was bound the first time
  (`SourceStorage.RedeclarationIff` is exact).
- A nameless workspace variable is reported as an owner mismatch when it has a
  value, and as an invalid argument when it has none
  (`ValueHandles.Boundary.CarryWorkspace`).
- After a failed read the input source does not print the next prompt: the request
  still counts as prompted (`ConsoleInput.Console.Poll`).
- The digest object accepts further updates after it has been finished; what it
  then holds is of no meaning, and it never yields a second digest
  (`Sha256.Digest.Finish`).

## Assumptions

- `JsonWriters.Formatter`: the decimal formatting of a finite nonzero binary64
  (`std::to_chars`) is some JSON number other than the two zeros;
  `MachineProtocol.Documents`: the graphics serializer refuses a value or writes one
  JSON value, in whatever spelling.
- `ValueHandles.Boundary.Execute`: code that runs under a module or a shared runtime
  returns, and writes into handle objects, only values that belong to that owner; the
  objects it writes into are that owner's; it never changes a shared function
  descriptor or table storage (`Ownership.RunsUnder`). The verdict of
  `validateRuntimeValueContract` is the parameter `accepts`.
- `Ownership.Inert` is what ownership relies on for objects that no module binds.
  That they have no fields is part of the value contract. That an array of graphics
  or dates holds only such is an assumption about how arrays are built: building one
  asks for a common class, which the contract does not compare again. The home of a bound value, which is the owner under whom it was
  made, is recorded in the model and nowhere in the code.
- `Layout`, `Comparison`, `ProtocolWalk`: dimensions fit `size_t`, as the source's
  types say; `RuntimeValues.Valid` is the part of the value contract on which
  the comparison relies.
- A whole file in `Sha256.OfFile` is read in full chunks but for the last; the end
  or the failure of the stream is a parameter.

## Model

| member | source | states |
|---|---|---|
| Comparison.ValuesEqual | src/mparser/execution/runtime_benchmark.cpp:201-207 | On every heap, cyclic or not, the comparison terminates, and it answers true exactly when some bisimulation of the handle objects and tables relates the two values. |
| Comparison.CompareValues | src/mparser/execution/runtime_benchmark.cpp:40-199 | With any two visited sets: true means the values match assuming the pairs visited so far, and every pair added is justified by the final sets; false means no bisimulation relates them. The measure is unvisited pairs, then size. |
| Comparison.CompareObjectFields | src/mparser/execution/runtime_benchmark.cpp:172-195 | The fields branch: a pair of shared maps is recorded before it is entered; true gives matching objects and justified pairs, false rules out every bisimulation. |
| Comparison.CompareObjects | src/mparser/execution/runtime_benchmark.cpp:145-196 | Object comparison, scalar and array, with the same soundness and completeness. |
| Comparison.CompareTabular | src/mparser/execution/runtime_benchmark.cpp:59-82 | Tables and timetables are compared once per pair of storages, with the same guarantees. |
| Comparison.CompareTables | src/mparser/runtime/core/value/runtime_table.cpp:2175-2195 | The elementwise table and timetable comparisons agree with table matching, for the recursive comparison as callback. |
| Comparison.CompareVariableValues | src/mparser/runtime/core/value/runtime_table.cpp:2187-2193 | The loop over the variables of two tables: names and values agree in order, or one variable spoils the whole. |
| Comparison.CompareCells | src/mparser/execution/runtime_benchmark.cpp:97-109 | The element loop of cells and lists: true exactly with all elements matched, false with a pair that no bisimulation relates. |
| Comparison.CompareFields | src/mparser/execution/runtime_benchmark.cpp:186-195 | The loop over a field map, in any order, decides whether the two maps bind the same names to related values. |
| Comparison.CompareStructs | src/mparser/execution/runtime_benchmark.cpp:119-144 | Structure arrays, record by record; a refusal names a record pair that no bisimulation relates. |
| Comparison.CompareParts | src/mparser/execution/runtime_benchmark.cpp:146-171 | Object arrays, by column-major index; a refusal rules out every bisimulation. |
| Comparison.NumericValuesIdentical | src/mparser/runtime/core/value/runtime_numeric.cpp:1057-1106 | Elementwise identity of numeric values of one class and shape: exact bits for integers, IEEE equality otherwise, a missing imaginary part read as zero. |
| Comparison.CategoricalValuesEqual | src/mparser/runtime/core/value/runtime_categorical.cpp:1294-1319 | Categorical equality compares labels, not codes, and category lists only when ordinal. |
| Comparison.ObjectElementOf | src/mparser/runtime/core/object_model/runtime_object.cpp:416-422 | The element of an object array at a column-major index; a scalar object is its own only element. |
| Bisimulation.BisimilarSymmetric | src/mparser/execution/runtime_benchmark.cpp:40-207 | The relation decided by the comparison is symmetric. |
| Bisimulation.BisimilarTransitive | src/mparser/execution/runtime_benchmark.cpp:40-207 | The relation is transitive, across every representation a value can have (dense and sparse numbers, scalar objects and one-element arrays). |
| Bisimulation.ElementsMatch | src/mparser/execution/runtime_benchmark.cpp:146-171 | However two matching class objects were compared, their elements match one by one. |
| EqualityMeaning.NumericBisimilarIff | src/mparser/runtime/core/value/runtime_numeric.cpp:1057-1107 | Two numeric values of one class, shape and form are equal exactly when at every column-major index the bits agree, for integers, or the reals agree and are no NaN, for the others; a missing imaginary part counts as zero. |
| EqualityMeaning.PlainEqualIff | src/mparser/execution/runtime_benchmark.cpp:40-144 | For values without shared pointers or objects, in canonical form (no NaN, one zero, exact storage, nothing unused), equality is identity. |
| EqualityMeaning.ContainersEqualIff | src/mparser/execution/runtime_benchmark.cpp:97-144 | Cells, lists, name-value arguments and structures are equal exactly when class and shape are and their parts are, place by place and name by name. |
| SharedEquality.FunctionsEqualIff | src/mparser/execution/runtime_benchmark.cpp:110-115 | Two function handles are equal exactly when both have a descriptor and the descriptors have one identity. |
| SharedEquality.CategoricalsEqualIff | src/mparser/runtime/core/value/runtime_categorical.cpp:1294-1319 | Two categorical arrays are equal exactly when shape and ordinality are, every slot has the same label or none, and ordinal ones have the same categories. |
| SharedEquality.TablesEqualIff | src/mparser/runtime/core/value/runtime_table.cpp:2175-2195 | Two tables are equal exactly when kind, row count, names, description, row times or row names, every variable and the user data are, however they refer back to each other. |
| SharedEquality.ObjectsEqualIff | src/mparser/execution/runtime_benchmark.cpp:172-195 | Two objects are equal exactly when class, shape, handle-ness and all fields are, however they refer back to each other. |
| SharedEquality.ObjectArraysEqualIff | src/mparser/execution/runtime_benchmark.cpp:146-171 | Two object arrays are equal exactly when class, shape, handle-ness and all elements are. |
| ComparisonLimits.SelfEqualIff | src/mparser/execution/runtime_benchmark.cpp:40-207 | A value equals itself if and only if nothing reachable from it is a NaN, a payload not matching its shape, or a function handle without descriptor. |
| ComparisonLimits.NaNIsNotSelfEqual | src/mparser/runtime/core/value/runtime_numeric.cpp:1094-1105 | The number NaN is not equal to itself, so the relation is not reflexive. |
| ComparisonLimits.TemporalPayloadIgnored | src/mparser/execution/runtime_benchmark.cpp:145-196 | Any two scalar dates, or durations, that meet the value contract are equal exactly when class and shape agree, whatever instant they hold. |
| ComparisonLimits.OnlyFieldsAreCompared | src/mparser/execution/runtime_benchmark.cpp:172-195 | Objects without fields are equal exactly when shape, class and handle-ness agree: descriptor identities, elements of metadata arrays, enumeration members and instants are not looked at. |
| ComparisonLimits.MetadataIdentityIgnored | src/mparser/execution/runtime_benchmark.cpp:172-195 | Metadata descriptors, and arrays of them, are equal exactly when class and shape agree, whatever they describe. |
| ComparisonLimits.UnsharedHandlesCanDiverge | src/mparser/execution/runtime_benchmark.cpp:172-195 | Without the value contract rule that a handle object keeps its fields in a shared map, there are two values on which the comparison recurses for ever, whatever the order of fields. |
| ComparisonLimits.DivergesIff | src/mparser/execution/runtime_benchmark.cpp:172-195 | Through the fields of objects, and with the fields of a map in any order, the comparison can nest to every depth without recording a pair if and only if it starts in a finite set of pairs, none with both maps shared, each of which leads into the set. |
| ComparisonLimits.ContractNeverDiverges | src/mparser/execution/runtime_benchmark.cpp:172-195 | No pair of values that meet the value contract leads to such a set. |
| Benchmark.CompareVariables | src/mparser/execution/runtime_benchmark.cpp:209-245 | The verdict is true exactly when the last-binding-wins name maps have the same names and related values; each failure message names a true witness. |
| Benchmark.LastBindingWins | src/mparser/execution/runtime_benchmark.cpp:214-221 | In the map built from a variable list, a name is bound to its last occurrence. |
| Benchmark.BoundNameOccurs | src/mparser/execution/runtime_benchmark.cpp:214-221 | Nothing else is bound: every bound name has a last occurrence in the list. |
| Benchmark.SameBindingsSymmetric | src/mparser/execution/runtime_benchmark.cpp:209-245 | Agreement of two variable maps is symmetric. |
| Benchmark.SameBindingsTransitive | src/mparser/execution/runtime_benchmark.cpp:209-245 | Agreement of variable maps is transitive. |
| Benchmark.NeighboursSuffice | src/mparser/execution/runtime_benchmark.cpp:517-547 | For any number of runs, agreement of neighbours is agreement of every pair. |
| Benchmark.CompareRuns | src/mparser/execution/runtime_benchmark.cpp:495-550 | outputsMatch is set exactly when the run is comparable and all four variable maps agree pairwise, although only three adjacent comparisons are made; each of the three fields says that the run is comparable and agrees up to there. |
| Utf8.RecognisesExactlyUtf8 | src/mparser/embedding/machine_protocol.cpp:267-322 | The recogniser returns n at an offset if and only if the n bytes there encode a non-ASCII Unicode scalar value (section 4 of RFC 3629). |
| Utf8.AcceptedIsEncoding | src/mparser/embedding/machine_protocol.cpp:267-322 | An accepted sequence is the encoding of the scalar value its bits spell. |
| Utf8.EncodingIsAccepted | src/mparser/embedding/machine_protocol.cpp:267-322 | The encoding of any non-ASCII scalar value is accepted, whatever surrounds it. |
| Utf8.AcceptedAnywhere | src/mparser/embedding/machine_protocol.cpp:267-322 | Acceptance depends on the bytes of the sequence alone. |
| Utf8.WellFormedIff | src/mparser/embedding/machine_protocol.cpp:324-378 | A string passes byte by byte if and only if it is the encoding of some list of scalar values. |
| Utf8.SanitizeWellFormed | src/mparser/embedding/machine_protocol.cpp:324-378 | Replacing stray bytes by U+FFFD gives well-formed UTF-8 and leaves well-formed input alone. |
| Utf8.FromUtf16WellFormed | src/mparser/runtime/core/value/runtime_text.cpp:143-166 | Text converted from UTF-16, lone surrogates included, is well-formed UTF-8. |
| Utf8.FromUtf16Transcodes | src/mparser/runtime/core/value/runtime_text.cpp:143-166 | The UTF-16 text of any characters, surrogate pairs included, becomes their UTF-8 text. |
| Utf8.LoneSurrogate | src/mparser/runtime/core/value/runtime_text.cpp:143-166 | A surrogate without its partner becomes U+FFFD, and what stands around it is converted as if it were alone. |
| JsonStrings.AppendQuoted | src/mparser/embedding/machine_protocol.cpp:324-378 | The index loop appends exactly the quoted, escaped form of any byte string. |
| JsonStrings.QuotedDecodes | src/mparser/embedding/machine_protocol.cpp:324-378 | A decoder for section 7 of RFC 8259 reads the quoted form back, up to the closing quote, as the input with stray bytes replaced by U+FFFD; well-formed input comes back unchanged. |
| JsonStrings.QuotedWellFormed | src/mparser/embedding/machine_protocol.cpp:324-378 | The emitted bytes are well-formed UTF-8 whatever the input. |
| JsonText.TextRoundTrip | src/mparser/embedding/machine_protocol.cpp:75-265 | Parsing the compact text of any tree (section 2 of RFC 8259) gives the tree back, strings sanitized. |
| JsonText.ParseRendered | src/mparser/embedding/machine_protocol.cpp:75-265 | The same for a value followed by anything that cannot continue it. |
| JsonText.RenderedStandsAlone | src/mparser/embedding/machine_protocol.cpp:75-265 | The compact text of a tree is itself one JSON value that can be embedded, and it then means that tree. |
| JsonText.IntegerRoundTrip | src/mparser/embedding/machine_protocol.cpp:255-265 | A printed integer is a JSON number and reads back as itself. |
| WriterStates.PutText | src/mparser/embedding/machine_protocol.cpp:221-253 | Completing a value appends its separator and its text to the document, and nothing else. |
| WriterStates.CloseText | src/mparser/embedding/machine_protocol.cpp:83-102 | Closing the innermost container only adds its bracket. |
| WriterStates.RunTree | src/mparser/embedding/machine_protocol.cpp:77-165 | The calls that traverse a tree are all accepted and add exactly that tree. |
| WriterStates.WritesIffTraversal | src/mparser/embedding/machine_protocol.cpp:75-265 | A call sequence leaves a finished document j if and only if, with whole documents spelled out, it is the traversal of j. |
| JsonWriters.JsonWriter.BeginObject | src/mparser/embedding/machine_protocol.cpp:77-81 | Accepted exactly where a value may come; the output and the stack are those of the document grown by an open object. |
| JsonWriters.JsonWriter.EndObject | src/mparser/embedding/machine_protocol.cpp:83-90 | Accepted exactly when the innermost open container is an object with no key waiting; closes it as a value of its parent. |
| JsonWriters.JsonWriter.BeginArray | src/mparser/embedding/machine_protocol.cpp:92-96 | Accepted exactly where a value may come; opens an array. |
| JsonWriters.JsonWriter.EndArray | src/mparser/embedding/machine_protocol.cpp:98-102 | Accepted exactly when the innermost open container is an array. |
| JsonWriters.JsonWriter.Key | src/mparser/embedding/machine_protocol.cpp:104-114 | Accepted exactly in an object with no key waiting. |
| JsonWriters.JsonWriter.StringValue | src/mparser/embedding/machine_protocol.cpp:126-129 | Accepted exactly where a value may come; adds one string. |
| JsonWriters.JsonWriter.NullValue | src/mparser/embedding/machine_protocol.cpp:116-119 | Likewise for null. |
| JsonWriters.JsonWriter.BooleanValue | src/mparser/embedding/machine_protocol.cpp:121-124 | Likewise for true and false. |
| JsonWriters.JsonWriter.UnsignedValue | src/mparser/embedding/machine_protocol.cpp:144-147 | Likewise for an unsigned integer. |
| JsonWriters.JsonWriter.SignedValue | src/mparser/embedding/machine_protocol.cpp:149-152 | Likewise for a signed integer. |
| JsonWriters.JsonWriter.DoubleValue | src/mparser/embedding/machine_protocol.cpp:154-175 | Likewise for a binary64: NaN and infinities as their strings, a zero as 0 or -0 by its sign, other values by the formatter. |
| JsonWriters.JsonWriter.Document | src/mparser/embedding/machine_protocol.cpp:131-142 | Likewise for an already serialized document, which goes out as it is, whatever its spelling. |
| JsonWriters.JsonWriter.BeforeValue | src/mparser/embedding/machine_protocol.cpp:233-253 | Says yes exactly where a value may come; then the output has gained the separator, and every open context is as it must be inside a value; otherwise nothing changes. |
| JsonWriters.ZeroIsNumber | src/mparser/embedding/machine_protocol.cpp:166-174 | The texts of the two zeros are JSON numbers, and different ones. |
| JsonWriters.JsonWriter.Finish | src/mparser/embedding/machine_protocol.cpp:196-213 | Succeeds exactly on a complete document with nothing open, and returns the compact text of one tree. |
| JsonWriters.Drive | src/mparser/embedding/machine_protocol.cpp:75-265 | Any client, stopping at the first logic_error, gets a document exactly when its calls are the traversal of a tree, and then that tree's text. |
| JsonWriters.FinishedDocumentParses | src/mparser/embedding/machine_protocol.cpp:75-265 | Every finished document is a JSON text that parses to the tree its calls traverse. |
| ProtocolWalk.WriteRuntimeValue | src/mparser/embedding/machine_protocol.cpp:666-728 | Where a value is due, the walk never reaches a logic_error, succeeds exactly on writable values (shapes hold, nothing lies beyond the depth limit, the graphics serializer refuses nothing), and then has added exactly the value's document with every open container unchanged. |
| ProtocolWalk.WriteCellLikeValue | src/mparser/embedding/machine_protocol.cpp:557-577 | The same for cells and lists. |
| ProtocolWalk.WriteStructValue | src/mparser/embedding/machine_protocol.cpp:579-617 | The same for structure arrays. |
| ProtocolWalk.WriteNumericValue | src/mparser/embedding/machine_protocol.cpp:474-507 | The same for numeric values. |
| ProtocolWalk.WriteCharacterValue | src/mparser/embedding/machine_protocol.cpp:509-529 | The same for character arrays. |
| ProtocolWalk.WriteStringValue | src/mparser/embedding/machine_protocol.cpp:531-555 | The same for string arrays. |
| ProtocolWalk.WriteFunctionHandleValue | src/mparser/embedding/machine_protocol.cpp:619-641 | The same for function handles. |
| ProtocolWalk.WriteObjectValue | src/mparser/embedding/machine_protocol.cpp:643-664 | The same for objects: refused exactly when the graphics serializer refuses; otherwise its document is embedded as it is. |
| ProtocolResults.WritableIff | src/mparser/embedding/machine_protocol.cpp:666-728 | The walk succeeds from a depth if and only if the value is well shaped, its graphics have documents, and its nesting keeps every depth within 128. |
| ProtocolResults.CellItemAt | src/mparser/embedding/machine_protocol.cpp:565-575 | Item i of a cell's data is the document of its column-major element i, and there are as many items as the shape says. |
| ProtocolResults.RecordMemberAt | src/mparser/embedding/machine_protocol.cpp:596-614 | Member j of a structure element is declared field j with that field's own document. |
| ProtocolResults.JsonOfProper | src/mparser/embedding/machine_protocol.cpp:666-728 | Every number in a value's document is a JSON number. |
| ProtocolResults.SerializeValue | src/mparser/embedding/machine_protocol.cpp:666-728 | One value as one document: a text comes out exactly when shapes hold, nesting stays within 128 and the graphics serializer refuses nothing, and it parses back to the value's document. |
| ProtocolReading.ValueReadBack | src/mparser/embedding/machine_protocol.cpp:474-728 | A reader of the format, which looks members up by name and shares nothing with the writer, gets back from the document of a value its class, shape and contents in column-major order: real parts from data and imaginary ones from imaginary_data, integers by value and sign, truth values, NaN, infinities and zeros by sign, code units, texts, fields in declared order, and descriptor texts. |
| ProtocolReading.TextSays | src/mparser/embedding/machine_protocol.cpp:666-728 | So the text of a value, parsed and read, says what the value holds. |
| ProtocolContents.PartRead | src/mparser/embedding/machine_protocol.cpp:453-472 | One item of data or imaginary_data reads back as the component it was written from, for each class. |
| DiagnosticCauses.WriteCause | src/mparser/embedding/machine_protocol.cpp:766-788 | A tree of causes is written exactly when its nesting stays within 128, and then completely. |
| DiagnosticCauses.CauseProper | src/mparser/embedding/machine_protocol.cpp:756-788 | Every number in a cause's document is a JSON number. |
| DiagnosticCauses.SerializeCause | src/mparser/embedding/machine_protocol.cpp:766-788 | One cause as one document: refused exactly beyond the limit, and otherwise parsed back. |
| CauseReading.CauseReadBack | src/mparser/embedding/machine_protocol.cpp:756-788 | A reader gets back from the document of a cause its identifier, message, stack and the whole tree of causes, texts made UTF-8. |
| Layout.OffsetBijection | src/mparser/embedding/c_api.cpp:830-876 | For every dimension list the index map is a bijection of [0, product) onto itself, with an explicit two-sided inverse. |
| Layout.OffsetConvertsOrder | src/mparser/embedding/c_api.cpp:830-876 | It takes the column-major position of every coordinate to its row-major position. |
| Layout.LogicalStorageOffset | src/mparser/embedding/c_api.cpp:830-876 | The loop returns exactly that slot for every index in range of a product that fits size_t, and nothing otherwise: no overflow exit, zero exit or final test rejects an index in range. |
| Layout.CheckedDimensionProduct | src/mparser/runtime/core/value/runtime_shape.cpp:67-78 | The guarded product is present exactly when every partial product fits size_t. |
| Layout.CheckedProductExact | src/mparser/runtime/core/value/runtime_shape.cpp:67-78 | For a nonzero product the guard refuses exactly the products that do not fit. |
| Layout.ColumnMajorCoordinates | src/mparser/runtime/core/value/runtime_shape.cpp:182-198 | Peeling off coordinates gives the coordinates of the index, for exactly the indices in range. |
| Layout.RowMajorStorageOffset | src/mparser/runtime/core/value/runtime_shape.cpp:200-221 | The guarded Horner scheme gives the row-major position exactly of the coordinates inside the shape whose position fits size_t. |
| Layout.ColumnMajorLinearToStorageOffset | src/mparser/runtime/core/value/runtime_shape.cpp:237-246 | The runtime's own route through coordinates gives, on every input, the answer of the C boundary's loop. |
| Layout.NormalizeKeepsLayout | src/mparser/runtime/core/value/runtime_shape.cpp:10-21 | Dropping trailing singleton dimensions changes neither the product, nor whether it fits, nor any slot. |
| Layout.Normalize | src/mparser/runtime/core/value/runtime_shape.cpp:10-21 | A normalized shape is the given one without trailing singletons, down to rank two, and ends in none beyond that. |
| ColumnMajorArrays.CopyDimensions | src/mparser/embedding/c_api.cpp:1119-1134 | Accepts exactly rank two or more with as many elements as the shape says. |
| ColumnMajorArrays.CreateFromColumnMajor | src/mparser/embedding/c_api.cpp:3594-3616 | The constructors' loop fills every slot with exactly the element of its own column-major index, and refuses no write in range. |
| ColumnMajorArrays.ReadElement | src/mparser/embedding/c_api.cpp:4002-4008 | Reading by column-major index finds the slot of that index, for exactly the indices in range. |
| ColumnMajorArrays.BuildColumnMajorCache | src/mparser/embedding/c_api.cpp:1014-1050 | The cache lists the stored elements in column-major order. |
| ColumnMajorArrays.StoredReadsBack | src/mparser/embedding/c_api.cpp:3717-3727 | What was stored from column-major input reads back, at index i, as element i. |
| ColumnMajorArrays.RoundTrip | src/mparser/embedding/c_api.cpp:3604-3616 | Creating an array and reading it all back gives the host its own elements in its own order, for exactly the accepted shapes. |
| ColumnMajorArrays.StoredIgnoresTrailingSingletons | src/mparser/embedding/c_api.cpp:3651-3675 | Spelling out a trailing singleton dimension does not move any element. |
| ModuleSearch.RequiresModule | src/mparser/embedding/c_api.cpp:807-813 | On every graph, cyclic or not, the search returns, and says yes exactly when a bound value is reachable. |
| ModuleSearch.Search | src/mparser/embedding/c_api.cpp:678-805 | With any visited sets: yes means a bound value is reachable; no means the value and everything visited on its behalf hold none of their own. The measure is unvisited descriptors and storages, then size. |
| ModuleSearch.SearchFunction | src/mparser/embedding/c_api.cpp:683-709 | A closure's receiver and captured variables are searched once per descriptor. |
| ModuleSearch.SearchTable | src/mparser/embedding/c_api.cpp:712-735 | A table's values are searched once per storage. |
| ModuleSearch.ClearNeverReaches | src/mparser/embedding/c_api.cpp:691-694 | Answering no on a visited node never hides a bound value: once the search has found nothing, none is reachable at any distance. |
| ModulePaths.NeedsModuleIff | src/mparser/embedding/c_api.cpp:678-805 | What is searched for, spelled out: the answer is yes exactly when a path through elements, fields, closures and tables leads to a function handle with a backend, an object of a class, an exception, a graphics object that is no handle, or a live dynamic-property descriptor. |
| ModulePaths.NothingTiedInside | src/mparser/embedding/c_api.cpp:678-805 | In a value that is someone's and needs no module, nothing at any depth is tied to one, not even inside what the search does not open. |
| Ownership.OwnerUnique | src/mparser/embedding/c_api.cpp:1262-1312 | A value that needs a module belongs to at most one module or runtime, whichever of them its module ran under. |
| Ownership.BelongsIff | src/mparser/embedding/c_api.cpp:1063-1117 | Belonging passes no level by: a value belongs to an owner exactly when it is at home there itself and everything it holds, captures or refers to belongs there, inside bound closures and objects too. |
| Ownership.BelongsThroughout | src/mparser/embedding/c_api.cpp:1063-1117 | A value belongs to an owner exactly when nothing that can be reached from it, in any number of steps of any kind, is at odds with that owner. |
| Ownership.RunKeepsOwnership | src/mparser/embedding/c_api.cpp:1720-1828 | Code that runs under one owner neither gives any value a module it did not need nor changes whose it is, the values of other owners and its own included. |
| Ownership.NothingBound | src/mparser/embedding/c_api.cpp:1063-1117 | A value that needs no module and belongs to someone belongs to everyone. |
| ValueHandles.Boundary.MakeValueHandle | src/mparser/embedding/c_api.cpp:1063-1117 | Publishes exactly the transportable values that meet the contract, keeping the owner pointers exactly when the value needs a module; every other handle is unchanged. |
| ValueHandles.Boundary.OwnerForComposedValues | src/mparser/embedding/c_api.cpp:1262-1295 | Accepts a list exactly when every handle is there and one owner could have made them all; otherwise the first handle that spoils this decides the status. |
| ValueHandles.Boundary.Gather | src/mparser/embedding/c_api.cpp:1276-1292 | One step of the owner loop: accepted exactly when the list with the new handle still could have one owner. |
| ValueHandles.Boundary.CreateLeaf | src/mparser/embedding/c_api.cpp:3501-3577 | The host's own numbers and text carry no owner. |
| ValueHandles.Boundary.CreateCell | src/mparser/embedding/c_api.cpp:3685-3736 | A cell is made exactly from a fitting shape, handles that one owner could have made and contents that meet the contract; it holds each value at its own column-major index, and has the gathered owner exactly if it needs one. |
| ValueHandles.Boundary.CreateStruct | src/mparser/embedding/c_api.cpp:3738-3801 | A struct is made exactly from distinct, non-empty names, handles that one owner could have made and contents that meet the contract, with the fields in the host's order and the gathered owner exactly if it needs one; otherwise the first bad field decides the status. |
| ValueHandles.Boundary.CellElement | src/mparser/embedding/c_api.cpp:3987-4013 | The element at a column-major index, published with the cell's owner exactly if it still needs one. |
| ValueHandles.Boundary.StructField | src/mparser/embedding/c_api.cpp:4038-4073 | The declared field of the element at a column-major index, published with the struct's owner exactly if it still needs one; a missing field of an existing element is an internal error, any other miss is out of range. |
| ValueHandles.Boundary.BuildRequest | src/mparser/embedding/c_api.cpp:1443-1480 | A request is accepted exactly when every argument and workspace value is there and belongs to the target, down to the last bound value inside, and every variable is named; it carries exactly those values. |
| ValueHandles.Boundary.CarryArguments | src/mparser/embedding/c_api.cpp:1443-1457 | The argument loop: a refusal points at a missing handle, or at one that holds a value bound elsewhere. |
| ValueHandles.Boundary.CarryWorkspace | src/mparser/embedding/c_api.cpp:1458-1480 | The workspace loop, where a nameless variable with a value is reported as an owner mismatch. |
| ValueHandles.Boundary.CompatibleIff | src/mparser/embedding/c_api.cpp:1297-1312 | The two pointer comparisons hold exactly when the value, with everything bound inside it, belongs to the target. |
| ValueHandles.Boundary.Execute | src/mparser/embedding/c_api.cpp:1720-1828 | Running a request that was accepted may write into the owner's objects and return anything of its own; the whole protocol invariant survives, for a module that also runs in shared runtimes as well. |
| ValueHandles.Boundary.ResultOutput | src/mparser/embedding/c_api.cpp:3122-3139 | An output is published with the result's owner exactly if it needs one. |
| ValueHandles.Boundary.Release | src/mparser/embedding/c_api.cpp:3807-3809 | Dropping a handle keeps the protocol invariant. |
| ValueHandles.Boundary.UnownedIsFree | src/mparser/embedding/c_api.cpp:1063-1117 | A live handle with neither owner pointer holds nothing, at any depth, that is tied to a module. |
| ValueHandles.Boundary.OwnedIsAtHome | src/mparser/embedding/c_api.cpp:1063-1117 | Whatever is tied to a module, at any depth of what a live handle holds, was made under the one owner that the handle has. |
| ValueHandles.Boundary.CarriedIsAtHome | src/mparser/embedding/c_api.cpp:1442-1475 | Whatever is tied to a module, at any depth of what an accepted request carries, was made under its target. |
| DebugScope.AtMostOneInvocation | src/mparser/embedding/c_api.cpp:1573-1621 | In every state of every run, under every interleaving of threads and same-thread re-entry: a debugger has at most one active invocation, executing says whether there is one, and the owner fields are exactly its own. |
| DebugScope.RunInv | src/mparser/embedding/c_api.cpp:1573-1621 | Every step of every thread keeps the invariant that ties the mutex, its depth and the debugger fields to the scopes alive. |
| DebugScope.NextInv | src/mparser/embedding/c_api.cpp:1573-1621 | One step keeps that invariant. |
| DebugScope.StepKeeps | src/mparser/embedding/c_api.cpp:1575-1616 | For the debugger and thread of the moving scope: the lock depth counts the scopes that hold it, and the fields describe the active one. |
| DebugScope.ArmsOnlyWhenIdle | src/mparser/embedding/c_api.cpp:1591-1598 | With the lock taken, a start arms exactly when no invocation of that debugger is active anywhere, and is refused otherwise. |
| DebugScope.RefusalLeavesUntouched | src/mparser/embedding/c_api.cpp:1587-1594 | Over any run: whatever starts other threads and inner scopes attempt while an invocation is active and does not move, it stays the only one and the debugger's fields stay as they were. |
| DebugScope.ExitRestoresIdle | src/mparser/embedding/c_api.cpp:1610-1616 | Over any run: a debugger without an active invocation has all three fields reset, and its mutex is held exactly as often as scopes hold it. |
| DebugScope.AllDoneIsIdle | src/mparser/embedding/c_api.cpp:1573-1621 | When no thread is inside an invocation, every debugger is unlocked and idle. |
| DebugScope.FreeCanBeArmed | src/mparser/embedding/c_api.cpp:1575-1602 | A debugger that nobody holds can be armed by any thread that may start an invocation: four steps set the lock, the flag and both owners as asked, and touch no other debugger. |
| SharedHandles.Process.BeginCopy | include/mparser/cpp_api.hpp:474-477 | Reading the other wrapper's pointer keeps every count right while the retain is outstanding. |
| SharedHandles.Process.Retain | src/mparser/embedding/c_api.cpp:343-348 | The retain raises exactly one count by one, and completes the copy. |
| SharedHandles.Process.Move | include/mparser/cpp_api.hpp:479-480 | A move transfers the pointer, leaves the source null and changes no count. |
| SharedHandles.Process.Swap | include/mparser/cpp_api.hpp:491-493 | A swap, also with itself, changes no count. |
| SharedHandles.Process.Destroy | include/mparser/cpp_api.hpp:487-489 | Destroying a wrapper leaves one release owed for its handle. |
| SharedHandles.Process.Release | src/mparser/embedding/c_api.cpp:350-357 | A release lowers one count; the handle is deleted exactly when that count was one, and then no wrapper holds it, not even one being copied. |
| SharedHandles.Process.CopyAssign | include/mparser/cpp_api.hpp:482-485 | By-value assignment gives the target the source's handle: that handle's count rises by one, and then the target's old handle loses one, being deleted if it had one; self-assignment changes nothing at all. |
| SharedHandles.Process.MoveAssign | include/mparser/cpp_api.hpp:482-485 | Move assignment transfers the handle, and the target's old handle loses one, being deleted if it had one; self-move-assignment changes nothing at all. |
| SharedHandles.Process.DestroyAndRelease | include/mparser/cpp_api.hpp:487-489 | The destructor as a whole lowers one count, deleting the handle exactly at one. |
| SharedHandles.Process.CountIsWrappers | include/mparser/cpp_api.hpp:466-505 | With no release outstanding, a handle exists exactly while some wrapper holds it, and its count is their number. |
| SharedHandles.Process.EverythingDeletedOnce | include/mparser/cpp_api.hpp:466-505 | When all wrappers are gone, every handle has been deleted exactly once. |
| SharedHandles.ReleaseKeeps | src/mparser/embedding/c_api.cpp:350-357 | The counting argument of a release, for both outcomes. |
| SharedHandles.RetainKeeps | src/mparser/embedding/c_api.cpp:343-348 | The counting argument of a retain. |
| Sha256.Digest.Update | tools/performance_baseline.cpp:346-365 | Refused, with nothing changed, exactly when the byte count would leave uint64; otherwise the digest has taken in the data behind what it had. |
| Sha256.Digest.Finish | tools/performance_baseline.cpp:367-396 | The digest of everything taken in, by sections 5.1.1, 5.2.1 and 6.2.2 of FIPS 180-4, exactly once and exactly while the bit count fits uint64. |
| Sha256.Digest.CompressBlock | tools/performance_baseline.cpp:417-481 | The in-place compression is the block step of section 6.2.2. |
| Sha256.Digest.RunRounds | tools/performance_baseline.cpp:442-472 | The 64 in-place rounds are the rounds of section 6.2.2. |
| Sha256.Digest.ExpandSchedule | tools/performance_baseline.cpp:418-440 | The array holds the message schedule of section 6.2.2. |
| Sha256.Digest.PadBlocks | tools/performance_baseline.cpp:372-387 | Marker, zero fills and length field complete the padding of section 5.1.1, in one block or two. |
| Sha256.PaddingPieces | tools/performance_baseline.cpp:374-386 | The two zero fills are together the smallest padding that completes a block. |
| Sha256.BigEndianAt | tools/performance_baseline.cpp:383-386 | Each byte written by shifting is the byte of the big-endian length. |
| Sha256.PadInjective | tools/performance_baseline.cpp:367-386 | Distinct messages within the bound have distinct padded forms. |
| Sha256.DigestOfChunks | tools/performance_baseline.cpp:346-396 | Every split of a message into updates gives the digest of the message. |
| Sha256.OneShot | tools/performance_baseline.cpp:665-669 | The digest of a string, for exactly the lengths within the bound. |
| Sha256.OfFile | tools/performance_baseline.cpp:678-699 | Reading in 64 KiB chunks gives the digest of the file's bytes, and nothing for a stream that breaks. |
| Sha256.FileAgreesWithOneShot | tools/performance_baseline.cpp:665-699 | A file and a string with the same bytes have the same digest. |
| Sha256Constants.ChoiceBits | tools/performance_baseline.cpp:454-455 | The choice has y's bit where x has a one and z's bit elsewhere. |
| Sha256Constants.MajorityBits | tools/performance_baseline.cpp:461-462 | The majority has a one exactly where at least two of the words do. |
| Sha256Constants.InitialRoots | tools/performance_baseline.cpp:367-396 | The initial words are the first 32 fractional bits of the square roots of the first eight primes. |
| Sha256Constants.ConstantRoots | tools/performance_baseline.cpp:399-415 | The first 16 round constants are the first 32 fractional bits of the cube roots of the first 16 primes. |
| Sha256Constants.ConstantRootsTo131 | tools/performance_baseline.cpp:399-415 | The next 16, of the primes 59 to 131. |
| Sha256Constants.ConstantRootsTo223 | tools/performance_baseline.cpp:399-415 | The next 16, of the primes 137 to 223. |
| Sha256Constants.ConstantRootsTo311 | tools/performance_baseline.cpp:399-415 | The last 16, of the primes 227 to 311. |
| Sha256Examples.AbcDigest | tools/performance_baseline.cpp:346-473 | The digest of "abc", one block, worked out round by round, is that of the standard's example. |
| Sha256Examples.LettersDigest | tools/performance_baseline.cpp:346-473 | So is the digest of the 56-letter message, whose padding takes a second block. |
| WindowsArguments.RoundTripIff | tools/performance_baseline.cpp:965-1000 | Microsoft's rules read the command line back as exactly the intended list if and only if no argument holds a NUL and the program name has no quote and, where it is quoted, does not end in a backslash. |
| WindowsArguments.ProgramNameCanChange | tools/performance_baseline.cpp:983-989 | A failing case in full: a program in a directory "a b\" is read back with two backslashes. |
| WindowsArguments.TailReadsBack | tools/performance_baseline.cpp:965-1000 | After the program name, every list of arguments comes back: empty ones, embedded quotes and runs of trailing backslashes included. |
| WindowsArguments.ArgumentReadsBack | tools/performance_baseline.cpp:965-990 | One quoted argument, followed by a separator or nothing, reads back as itself. |
| WindowsArguments.BodyReadsBack | tools/performance_baseline.cpp:970-989 | The invariant behind it: with backslashes pending, the rest of the quoted text reads back as those backslashes and the rest of the argument. |
| WindowsArguments.ProgramReadsBack | tools/performance_baseline.cpp:965-1000 | A program name without quotes reads back with its trailing backslashes doubled where it was quoted. |
| WindowsArguments.QuoteArgument | tools/performance_baseline.cpp:965-990 | The counting loop writes the quoted form, or the argument itself when it has nothing to protect. |
| WindowsArguments.UnquotedIff | tools/performance_baseline.cpp:965-969 | An argument is left as it is exactly when it is not empty and holds no space, tab, newline, vertical tab or quote. |
| WindowsArguments.JoinCommandLine | tools/performance_baseline.cpp:993-1000 | The arguments in order, with one space between neighbours. |
| MethodFiles.AttachClassMethod | src/mparser/embedding/compiled_module.cpp:269-357 | The scan and the in-place change: a refusal reports the first problem and leaves the tree alone; a declaration is overwritten; otherwise the method joins the first block without attributes, or a new one. |
| MethodFiles.ScanClass | src/mparser/embedding/compiled_module.cpp:299-330 | One pass finds the first duplicate, or the only declaration and the default block. |
| MethodFileResults.EntriesAfter | src/mparser/embedding/compiled_module.cpp:287-357 | Afterwards the class says of the method's name exactly its one body, with the attributes of the declaration it replaced, and of every other name what it said before. |
| MethodFileResults.AttachPending | src/mparser/embedding/compiled_module.cpp:807-810 | The merge loop applies the files one after another and collects their diagnostics. |
| MethodFileResults.FinalByName | src/mparser/embedding/compiled_module.cpp:807-810 | After all files, what a class says about a name is what attaching its own file alone would make of it. |
| MethodFileOrder.NeverTwoBodies | src/mparser/embedding/compiled_module.cpp:299-357 | Over any list of files, a class's entries for a name stay as they were or become one body; a body is never added to a body. |
| MethodFileOrder.ReplacementKeepsAttributes | src/mparser/embedding/compiled_module.cpp:332-347 | A replaced prototype's attributes carry over to its implementation. |
| MethodFileOrder.ComplaintsAreIndependent | src/mparser/embedding/compiled_module.cpp:807-810 | For distinct methods, each file gets the diagnostic it would get alone. |
| MethodFileOrder.OrderDoesNotMatter | src/mparser/embedding/compiled_module.cpp:807-810 | For distinct methods any order of the files gives the same classes: every member but the default block is equal, and the default block has the same original children in place and the same added ones, up to their order and the span of a new block; the diagnostics are the same up to their order. |
| MethodFileOrder.OriginalsStay | src/mparser/embedding/compiled_module.cpp:331-356 | Whatever files come, every original child of a class's blocks stays at its place, at most replaced by the body for a declaration, which has its name, attributes, outputs and parameters; only the default block grows, at its end. |
| MethodFileOrder.FinalLength | src/mparser/embedding/compiled_module.cpp:349-356 | A default block is added to a class exactly when it has none and some file needs one. |
| MethodFileVerdicts.WhatBecomesOf | src/mparser/embedding/compiled_module.cpp:279-357 | Whatever other files come with it: a file for a missing class is reported; otherwise the entries that the class has for the name decide. No entry: the body is added. A sole declaration with the same outputs, parameters, varargout and varargin: it is replaced by the body with its attributes. Anything else is refused, leaves the entries alone, and each of the three refusals is reported, with its span, for exactly its own state of the entries. |
| MethodFileVerdicts.EntriesAre | src/mparser/embedding/compiled_module.cpp:299-329 | The entries of a name are the declarations and bodies of that name in the methods blocks, and nothing else. |
| MethodFileVerdicts.WhereAdded | src/mparser/embedding/compiled_module.cpp:302-356 | An added method goes to the end of the first methods block without attributes, or into a new block behind all members. |
| DefinitionDirectory.CollectDefinitions | src/mparser/embedding/compiled_module.cpp:39-73 | The recursive walk appends exactly the definitions of the tree behind the existing ones. |
| DefinitionDirectory.CollectedInPreorder | src/mparser/embedding/compiled_module.cpp:47-72 | The appended entries are the function and prototype nodes in preorder, with their names and spans. |
| DefinitionDirectory.PreorderListsAll | src/mparser/embedding/compiled_module.cpp:45-72 | Every function and every prototype anywhere in the tree is among them, and nothing else. |
| DefinitionDirectory.ParentIsNearest | src/mparser/embedding/compiled_module.cpp:52-71 | Every entry's parent index names its nearest enclosing definition, or the one given for the whole tree. |
| DefinitionDirectory.KindsFit | src/mparser/embedding/compiled_module.cpp:55-64 | An entry is nested exactly if it has a parent, and a method exactly if it has none and lies in a class, and primary exactly if it has neither and its source is the function file of its name. |
| DefinitionDirectory.ClassNameReaches | src/mparser/embedding/compiled_module.cpp:39-72 | For every tree, each entry carries the name of the innermost class definition around it, and the given name where there is none. |
| DefinitionDirectory.PathsLead | src/mparser/embedding/compiled_module.cpp:68-72 | The paths by which that is said lead to the definitions in preorder. |
| DefinitionDirectory.AppendKeepsDirectory | src/mparser/embedding/compiled_module.cpp:777-793 | Appending a tree keeps parents strictly smaller and kinds right in the whole directory. |
| DefinitionDirectory.Outwards | src/mparser/embedding/compiled_module.cpp:52-66 | Every chain of parents descends strictly and ends at a definition that is not nested. |
| DefinitionDirectory.BuildDirectory | src/mparser/embedding/compiled_module.cpp:776-793 | Over all sources the directory lists all definitions in preorder, each with its nearest enclosing definition as its parent, its innermost class, and the kind that fits. |
| SourceStorage.Frame.DeclareStorage | src/mparser/execution/runtime_source_storage.cpp:23-121 | The declaration updates frame and session exactly as the transition does, and returns its outcome. |
| SourceStorage.Frame.ClearStorage | src/mparser/execution/runtime_source_storage.cpp:123-133 | Clearing one name, or all for the empty name, in both binding sets. |
| SourceStorage.Session.DeclareGlobal | src/mparser/runtime/core/session/runtime_session_state.cpp:67-75 | A stored global is returned as it is; a new one starts empty. |
| SourceStorage.Session.DeclarePersistent | src/mparser/runtime/core/session/runtime_session_state.cpp:82-94 | The same per function scope. |
| SourceStorage.DeclareKeepsStorage | src/mparser/execution/runtime_source_storage.cpp:23-121 | A failed declaration changes nothing at all, and a successful one overwrites nothing that was stored. |
| SourceStorage.DeclareKeepsWorkspace | src/mparser/execution/runtime_source_storage.cpp:23-121 | No other name's workspace entry or binding is touched. |
| SourceStorage.DeclareLinksWorkspace | src/mparser/execution/runtime_source_storage.cpp:23-121 | After a success the workspace holds the returned value, which is the stored one: what was stored before, else the local variable a global replaces, else the empty matrix. |
| SourceStorage.RedeclarationIff | src/mparser/execution/runtime_source_storage.cpp:37-86 | Redeclaring is without effect if and only if it is not a second persistent declaration at script level, where nothing is bound, that finds the variable in the workspace. |
| SourceStorage.DeclareOutcomes | src/mparser/execution/runtime_source_storage.cpp:25-117 | Which declaration succeeds and which problem is reported, each with its exact condition on the frame. |
| SourceStorage.ScriptRedeclarationFails | src/mparser/execution/runtime_source_storage.cpp:73-86 | The failing case in full: declare x persistent in a script, then declare it again. |
| SourceStorage.RunCoherent | src/mparser/execution/runtime_source_storage.cpp:7-133 | Over any run of declarations, clears and assignments, global and persistent names stay disjoint and persistent names imply a scope. |
| SourceStorage.BindingLasts | src/mparser/execution/runtime_source_storage.cpp:7-42 | What a name is bound to lasts: over any run it stays bound to the same storage until it is cleared, and a declaration of the other kind is refused and changes nothing. |
| SourceStorage.ClearFrees | src/mparser/execution/runtime_source_storage.cpp:123-133 | Clearing frees a name and changes neither values nor other bindings. |
| ConsoleInput.Console.Poll | src/mparser/cli/console_input.cpp:23-144 | One poll: it reads only when no line is buffered and the input is open, prompts once per request, and its reply and the buffer account for every byte; an error leaves the request prompted. |
| ConsoleInput.Console.Accounted | src/mparser/cli/console_input.cpp:23-144 | At any time the lines delivered and the lines still buffered are the lines of what was read. |
| ConsoleInput.Drain | src/mparser/cli/console_input.cpp:23-144 | However the stream is cut into reads and interleaved with unready, interrupted and failed polls, a host that keeps asking gets the stream's lines, then the end, with one prompt per answer. |
| ConsoleInput.LinesConcat | src/mparser/cli/console_input.cpp:28-35 | Splitting may be done piece by piece at any newline. |
| ConsoleInput.LinesOfUnlines | src/mparser/cli/console_input.cpp:28-35 | Splitting undoes terminating lines, and drops one carriage return before a newline. |
| ConsoleInput.LinesComeBack | src/mparser/cli/console_input.cpp:28-35 | Lines ended by newlines, alone or after a carriage return, come back as they were. |
| ConsoleInput.Console.FinishInput | src/mparser/cli/console_input.cpp:37-45 | After the end, the unterminated tail comes once and whole, and then the end over and over. |

## Left out

- ComparisonLimits.DivergesIff: cycles that pass through cells, structures, tables or object arrays, or through a pair that is recorded once, are not covered; with several fields in a map it speaks of some order of the fields, taken anew for each pair.
- ValueHandles.Boundary.StructField: field names are the stored order; the fallback to the map's own order, for a struct without a stored order, is not modelled.
- ValueHandles.Boundary.MakeValueHandle: allocation failures and the internal error of an impossible cache are not modelled; the contract check is a parameter.
- ValueHandles.Boundary.CreateLeaf: the value is given; copying a host buffer into it is modelled for text and cells in `ColumnMajorArrays`.
- JsonWriters.JsonWriter.DoubleValue: any text that is a JSON number is allowed for a finite nonzero value, since `std::to_chars` is not part of this model.
- ProtocolReading.ValueReadBack: a finite nonzero number reads back as the text that the formatter printed; that this text determines the number is for `std::to_chars` to promise.
- MethodFiles.AttachClassMethod: works on values; update in place and the moves of owning pointers are not modelled. A signature is what the comparison reads of it, since the signature parser is not part of this model.
- DefinitionDirectory.CollectDefinitions: children that are null pointers are not represented, as the walk skips them.
- Sha256.Digest.Finish: the fill level that a finished digest keeps is not modelled; nothing reads it.
- SharedHandles.Process.CopyAssign: proved for a thread that is not interrupted; under interleaving the steps it consists of keep the counts.
- DebugScope.AtMostOneInvocation: a thread may enter a scope only from outside or from inside a running invocation, as C++ scopes nest.
- WindowsArguments.QuoteArgument: works on UTF-16 text; the conversion from UTF-8 before it is not modelled.
- ConsoleInput.Console.Poll: the POSIX path. The Windows console key loop and pipes are operating-system input and are not modelled; neither is the text of the prompt.
- The enumeration member of an object, metadata descriptors and callable contexts are not compared by the source's equality and so play no part in it.
- The weak reference by which an event listener names its source is not followed, by ownership or by comparison.
- The lexer, the parser, semantic analysis, the bytecode machine, typed regions and code generation.
- Result documents as a whole: summaries, events, diagnostics and source ranges only string together writer calls like those modelled.
- Graphics values, snapshots, layout and export adapters.
- Getters, enumeration mappings, name tables, option parsing, benchmark statistics, process and memory queries, locks other than the debugger's.
- Wall-clock limits, fault injection, and callbacks that call back into the API, except re-entry of the debugger.
