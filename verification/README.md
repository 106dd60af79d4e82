# Marine: linking, interfaces and state, in Dafny

Marine runs WebAssembly modules that call each other through *interface types*. A generator turns the
Rust signatures left in a module by the SDK into small stack-machine programs (adapters) and index-heavy
tables; a loader recovers functions from those tables by arithmetic on indexes; a runtime keeps modules,
JSON calls, memory budgets and, in the browser, a table of JavaScript objects. This project models those
parts and proves what they promise. `dafny verify dfyconfig.toml` checks the whole project.

## How the model is laid out

| files | part of the system |
|---|---|
| `Types`, `ItAst`, `Graphs`, `Collections` | shared types: Rust integers, interface types and values, tables; walks in finite graphs; hash maps and multimaps collected from iterators |
| `RecordTable`, `RecordValidation`, `RecordGuarantees` | the generator's record phase: forward references, stubs, the counter of unresolved types, validation |
| `Adapters`, `GeneratorSpec`, `Generator` | adapter code and tables as functions, and the resolver that appends to them in place |
| `Layout`, `Loader`, `Linking`, `InterfaceRecovery` | where everything lies in the tables; the loader's index arithmetic; the agreement of the two |
| `Machine`, `Encoding`, `Lowering`, `ImportMeaning`, `ExportMeaning`, `LinkMeaning`, `ModuleLink` | a stack machine that gives the adapters meaning, and the theorem that a link preserves it |
| `RecordClosure`, `RecordSort`, `ModuleInterface`, `ArrayRecursion`, `NestingGap` | reading a module's public interface: depth-limited closure, topological sort, text views; modules that are generated but cannot be read |
| `Json`, `JsonLaws`, `JsonCall`, `InterfaceCache`, `MarineCalls` | JSON to interface values and back; calls with JSON arguments through the export adapters; the cache of interfaces; Marine's calls as one piece |
| `JsHeap`, `JsString` | the JavaScript object table and string passing |
| `Manifest`, `MemoryLimits`, `LinkHistory`, `HostAbi` | manifest codec, shared memory budget, load history, host-import ABI |

A pass that only computes is a function. A pass that changes things step by step is a class or a method
with loops, proved equal to a function, and the properties are proved about that function.

## Assumptions

The interpreter, the Wasm engine and the memory lowering libraries are not part of the repository's own
code that is modelled; what they do is stated as the following assumptions, all visible in the definitions.

* `Machine.Step` gives every adapter instruction its effect on a stack, a function table and linear
  memory. Memory is a map from addresses to cells; lowering a value writes a fresh cell that lifts to
  the same value, and lifting checks the type of what it finds. A released memory loses all cells, the two
  result registers keep theirs. An array of u8 values is taken where a byte array is expected, as calls with
  JSON arguments pass it, and lifts back as a byte array. A stack underflow, a wrong type, a dangling pointer
  or a missing function is `Stuck`, and the theorems say it never happens.
* An allocator may refuse a request and a core function may trap. A trapped run names the request or the
  call, and the theorems tie it to the run: the request was refused when the module's memory held what it
  held at the start and fewer cells more than there are values to lower, or the core function gave nothing
  when it was called on the lowered arguments. All that is asked of an allocator is that it never hands out an
  address in use. If it moreover hands one out whenever there is one, if memory has room for the arguments and
  the result, and if the core function answers, the calls finish; `Lowering.AllocatorsExist` shows that
  such allocators exist.
* `allocate` takes two i32s, as the runtime calls it, although the interface table lists one.
* Raw types are compared as Wasm types: a raw output of signed 32 bits stands for i32.
* Hash maps are iterated in any order; where the order could matter it is a parameter that ranges over all
  listings of the keys. Records sorted by name are covered by the same parameter.
* Integer casts between interface and Wasm values keep the low bits. Counters of the machine's width wrap,
  because the release profile has overflow checks off.
* Strings inside interface values are their UTF-8 bytes; floats are real numbers or one non-finite value.
* Field lists of record types are non-empty by their type in the original; no proof relies on it.

## Results that go against the code's own expectations

* `RecordGuarantees.NoStubLeftExactlyWhenNamesDistinct`: the check on unresolved types only tests a balance.
  A second definition of a record name lowers the counter again and can hide a name that was never defined;
  `RecordGuarantees.RepeatedNameHidesStub` shows it on two definitions.
* `ArrayRecursion.AcceptedButRefused`: a record that contains a vector of itself passes the generator, whose
  validation does not look through arrays, and is then refused when the interface is read.
* `NestingGap.LimitsDiffer`: the two limits of 1024 on nested records measure different things. The generator
  counts one level a record, reading an interface two, so what nests 513 to 1024 records, without arrays or
  cycles, is generated and then refused; `NestingGap.DeepReadsUpToHalf` shows it module by module.
* `HostAbi.DeclaredArgumentsLift` and `HostAbi.OutputShapeIsDeclared`: byte arrays and S64 are declared as one
  I32 in raw signatures, but lifted and lowered as two I32s and one I64. All other types agree.
* `MemoryLimits.OomReportedExactly`: the reject counter is a wrapping u32, so a multiple of 2^32 rejects is
  reported like none.
* `InterfaceCache.CacheAgreesExactlyWhen`: the cache of interfaces is read by module name but filled under
  function names. A call of a function that bears a module's name makes later JSON calls of that module be
  read against the wrong interface; the theorem says exactly when this cannot happen.
* `JsHeap.BorrowedCallBalanced`: the `finally` of a call with a borrowed argument also runs when the push
  failed on a full stack, and then pops a borrow of an outer call.
* The sort of records carries a to-do about cycles; `ModuleInterface.InterfaceIsSorted` shows that the depth
  limit of the pass before it already rules them out.

## Model

| member | source | states |
|---|---|---|
| Generator.ITResolver.GetRecordTypeIdUnchecked | crates/it-generator/src/instructions_generator.rs:51-67 | a known name keeps its id, a new one gets the next slot with a stub and counts as unresolved |
| Generator.ITResolver.InsertRecordType | crates/it-generator/src/instructions_generator.rs:85-100 | a known name's slot is filled and the wrapping counter goes down, a new one is appended; all other table entries stay |
| Generator.ITResolver.AddExport | crates/it-generator/src/instructions_generator.rs:134-141 | appends one export and changes nothing else |
| Generator.PtypeToItypeUnchecked | crates/it-generator/src/instructions_generator/utils.rs:62-93 | converts a Rust type, adding stubs for names not seen before |
| Generator.GenerateRecord | crates/it-generator/src/instructions_generator/record_instructions.rs:27-54 | the resolver after one record definition: fields converted in order, then the record inserted; an empty record is an error, a unit record leaves no trace |
| Generator.GenerateExport | crates/it-generator/src/instructions_generator/fn_instructions.rs:30-100 | the tables after one exported function: two types, an export, an adapter and an implementation |
| Generator.ExportInstructionList | crates/it-generator/src/instructions_generator/fn_instructions.rs:50-95 | the export adapter: lower the arguments, call the core function, lift the result, release if a complex type came back |
| Generator.GenerateImport | crates/it-generator/src/instructions_generator/foreign_mod_instructions.rs:57-151 | the tables after one imported function: three types, two import entries, an adapter and an implementation |
| Generator.ImportInstructionList | crates/it-generator/src/instructions_generator/foreign_mod_instructions.rs:95-151 | the import adapter, with its running argument index and its release before the call |
| Generator.GenerateInterfaces | crates/it-generator/src/interface_generator.rs:88-105 | the whole run, with its errors in their order, computes the tables every theorem below is about |
| RecordTable.RegisterAllHolds | crates/it-generator/src/instructions_generator/record_instructions.rs:27-54 | after any definitions: ids are distinct slots, every definition fills its slot under the final ids, every other slot is a stub, and no type mentions an unknown id |
| RecordTable.RegisterAllTallied | crates/it-generator/src/instructions_generator.rs:51-100 | after any definitions: the names known are those mentioned or defined, and the counter is stubs less repeated definitions |
| RecordGuarantees.IdsNeverMove | crates/it-generator/src/instructions_generator.rs:51-100 | an id handed out after any prefix of the definitions is still right at the end |
| RecordGuarantees.CounterCountsStubs | crates/it-generator/src/instructions_generator.rs:51-104 | with distinct names the counter equals the number of unfilled stubs after every definition |
| RecordGuarantees.CounterTestsBalance | crates/it-generator/src/interface_generator.rs:142-147 | what the counter check tests: missing names less repeated definitions, modulo the width of usize |
| RecordGuarantees.NoStubLeftExactlyWhenNamesDistinct | crates/it-generator/src/interface_generator.rs:142-147 | a successful run leaves every known name defined if and only if no record name repeats |
| RecordGuarantees.RepeatedNameHidesStub | crates/it-generator/src/instructions_generator.rs:85-100 | a concrete AST that generates although one of its records is never defined |
| RecordGuarantees.DefinedNamesAreFilled | crates/it-generator/src/instructions_generator/record_instructions.rs:27-54 | in the generated tables every defined name's slot holds its definition |
| RecordGuarantees.GeneratedRecordsAreSound | crates/it-generator/src/interface_generator.rs:117-159 | every reference in a record of a generated module, through any nesting of arrays, leads to a record of the module, and no record directly contains itself at any distance |
| RecordGuarantees.GenerateNeverPanics | crates/it-generator/src/instructions_generator.rs:69-83 | the panic on an id that names a function type is out of reach for every AST |
| RecordValidation.ValidateRecordType | crates/it-generator/src/interface_generator.rs:118-140 | the recursive check with its loop over fields computes the verdict of the specification |
| RecordValidation.RunValidateRecords | crates/it-generator/src/interface_generator.rs:117-159 | the counter check and the loop over the type table compute the verdict of the specification |
| RecordValidation.AcceptsExactlyBoundedNesting | crates/it-generator/src/interface_generator.rs:117-159 | a table without dangling references is accepted if and only if no chain of directly nested records is longer than 1024 |
| RecordValidation.AcceptedIsAcyclic | crates/it-generator/src/interface_generator.rs:117-159 | an accepted table has no cycle of directly nested records |
| ExportApi.DefaultExportApi | crates/it-generator/src/interface_generator.rs:107-115 | the six runtime helpers take type and export entries 0 to 5, in the order of their ids, each with its argument and output types |
| Layout.GeneratedIsLaid | crates/it-generator/src/interface_generator.rs:88-105 | for every AST the position and content of every type, import, export, adapter and implementation; host imports leave no entry |
| Linking.IndexesAgree | core/src/module/wit_instance.rs:55-138 | whenever a generated module loads, every index its code calls names the function meant: a helper, its own function, or its own import with the import's interface signature |
| Linking.LoadsExactlyWhen | core/src/module/wit_instance.rs:78-138 | the function table can be built if and only if the Wasm module exports every listed name and every import's module and function are loaded |
| InterfaceRecovery.InterfaceIsRecovered | crates/module-interface/src/it_interface/export_it_functions.rs:31-85 | in whatever order the maps are iterated, reading the exports back gives exactly the AST's functions with their signatures, as a multiset |
| InterfaceRecovery.ImportsAreLinked | core/src/module/marine_module.rs:292-461 | the linker receives exactly the AST's imports, each with its own adapter and raw signature |
| InterfaceRecovery.RawSignaturesLink | core/src/module/type_converters.rs:36-55 | the type conversion at link time never reaches its unimplemented case on generated raw signatures |
| Collections.FlatMapOrder | crates/it-interfaces/src/mit_interfaces.rs:57-108 | what is collected over a hash map does not depend on its order, as a multiset |
| Machine.RunAppend | crates/it-generator/src/instructions_generator/fn_instructions.rs:50-95 | running code in two parts is running it at once |
| ImportMeaning.ImportArgLifts | crates/it-generator/src/instructions_generator/foreign_mod_instructions/args_it_generator.rs:36-86 | the code for one argument pushes the value its raw form encodes and nothing else, for every type |
| ImportMeaning.ImportArgsLift | crates/it-generator/src/instructions_generator/foreign_mod_instructions.rs:108-122 | the running index is the sum of the raw widths of the earlier arguments: each argument is lifted from its own raw values |
| ExportMeaning.ExportArgLowers | crates/it-generator/src/instructions_generator/fn_instructions/args_it_generator.rs:36-82 | the code for one argument pushes a raw form of it, for byte arrays in either form; it keeps all memory written before, adds at most one cell and leaves other modules alone; it traps only if the allocator refused one request in the memory as it was |
| ExportMeaning.ExportArgsLower | crates/it-generator/src/instructions_generator/fn_instructions.rs:61-69 | the argument code pushes exactly the raw arguments of the whole list and adds at most one cell for each; it traps only if the allocator refused a request in memory that had grown by fewer cells than there are arguments |
| ExportMeaning.ExportOutputLifts | crates/it-generator/src/instructions_generator/fn_instructions/output_type_it_generator.rs:36-82 | the result code turns the raw result, or the result registers, into the interface value |
| ExportMeaning.ExportAdapterMeaning | crates/it-generator/src/instructions_generator/fn_instructions.rs:50-100 | an export adapter gives the core function its arguments and returns exactly its result; it never gets stuck, traps only if the allocator refused an argument in this run or the core function gave nothing on these arguments, and finishes if memory has room, the allocator uses it and the core function answers |
| LinkMeaning.ImportOutputLowers | crates/it-generator/src/instructions_generator/foreign_mod_instructions/output_type_it_generator.rs:36-85 | the code for an import's result leaves its raw form on the stack, or its registers set, with the value in memory; it traps only if the allocator refused one request in the memory as it was |
| Encoding.EncodedArgsFitSignature | crates/it-generator/src/instructions_generator/foreign_mod_instructions.rs:153-215 | the raw form of arguments has exactly the raw signature's Wasm types |
| Encoding.EncodedResultFitsSignature | crates/it-generator/src/instructions_generator/foreign_mod_instructions.rs:163-176 | the raw form of a result has exactly the raw signature's Wasm types, S32 for a raw i32 included |
| Encoding.RustConformsEverywhere | crates/it-generator/src/instructions_generator/utils.rs:29-60 | a Rust value has the converted type in every module that holds its record definitions, whatever their ids there |
| LinkMeaning.LinkPreservesMeaning | crates/it-generator/src/instructions_generator/foreign_mod_instructions.rs:95-151 | import adapter and export adapter composed compute the core function on the caller's values for every signature with at most one result, although memory is released in between; the final stack has the raw result types given to the linker; never stuck; a trap is the callee's, or the caller's allocator refused the result; the call finishes if both memories have room, both allocators use it and the core function answers |
| ModuleLink.InstantiateExports | core/src/module/marine_module.rs:463-499 | fails if and only if the adapter of some signature of the interface is missing |
| ModuleLink.ExportedCallable | core/src/module/marine_module.rs:463-499 | what other modules find under a function's name is that function's own adapter, in whatever order the interface was read |
| ModuleLink.LinkedModulesCompute | core/src/module/marine_module.rs:104-162 | from AST to call: two modules generated, loaded and linked by name compute the exported core function through the emitted adapters, with the same account of every trap and of when the call finishes |
| RecordClosure.RecordCollector.CollectType | crates/module-interface/src/it_interface/export_it_records.rs:61-88 | one step of the pass on the map it extends in place equals the specification, depth error included |
| RecordClosure.RecordCollector.CollectRecord | crates/module-interface/src/it_interface/export_it_records.rs:90-112 | inserts the record and then handles its fields; an unknown id is an error |
| RecordClosure.RunGetRecordTypes | crates/module-interface/src/it_interface/export_it_records.rs:34-59 | the pass over all signatures computes the specification |
| RecordClosure.SucceedsExactlyWhenBounded | crates/module-interface/src/it_interface/export_it_records.rs:34-112 | the pass succeeds if and only if every chain of types from the signatures costs at most 1024 levels and finds its records |
| RecordClosure.CollectsExactlyTheNeeded | crates/module-interface/src/it_interface/export_it_records.rs:34-112 | on success exactly the records reachable from the signatures through fields and arrays are collected, as the type table has them |
| RecordClosure.ReachableCycleFails | crates/module-interface/src/it_interface/export_it_records.rs:61-112 | a reachable cycle or a reachable missing record is always an error |
| RecordClosure.CollectedIsAcyclic | crates/module-interface/src/it_interface/export_it_records.rs:61-112 | the collected records form an acyclic graph |
| RecordSort.RecordsTransformer.Visit | crates/module-interface/src/interface/records_transformer.rs:60-77 | the depth-first visit on its two fields equals the specification and ends on every map |
| RecordSort.RecordsTransformer.VisitType | crates/module-interface/src/interface/records_transformer.rs:79-95 | follows records and arrays; a missing record is an error |
| RecordSort.RunTopologicalSort | crates/module-interface/src/interface/records_transformer.rs:51-58 | the sort as it runs computes the specification |
| RecordSort.SortsExactlyClosedMaps | crates/module-interface/src/interface/records_transformer.rs:51-95 | the sort succeeds if and only if no mentioned record is missing, and then lists every record exactly once, on cyclic maps too |
| RecordSort.TopologicalExactlyWhenAcyclic | crates/module-interface/src/interface/records_transformer.rs:44-77 | on a closed map every record comes after all it mentions if and only if no record reaches itself |
| ModuleInterface.TextViewDefined | crates/module-interface/src/interface/itype_to_text.rs:26-50 | the unwrap succeeds if and only if all records mentioned in the type are there |
| ModuleInterface.InterfaceIsSorted | crates/module-interface/src/interface/mod.rs:33-38 | reading an interface never panics and its sort never fails; it succeeds exactly within the depth bound, and then lists exactly the needed records in topological order |
| ModuleInterface.GeneratedInterfaceReads | crates/module-interface/src/interface/interface_transformer.rs:25-42 | for every generated module the interface is read and sorted if and only if all chains of types stay within the limit, and otherwise refused for its depth; nothing is ever missing |
| NestingGap.LimitsDiffer | crates/module-interface/src/it_interface/export_it_records.rs:61-112 | for every generated module without arrays no nesting exceeds 1024 records, and its interface can be read if and only if what its functions mention nests at most 512 |
| NestingGap.DeepReadsUpToHalf | crates/it-generator/src/interface_generator.rs:117-159 | for n up to 1024 the module of n records inside one another is generated; it can be read if and only if n is at most 512 |
| ArrayRecursion.AcceptedButRefused | crates/it-generator/src/interface_generator.rs:129-137 | a record with a vector of itself is generated and then refused with too many recursion levels |
| Json.EncodeRecord | crates/it-json-serde/src/ivalues_to_json.rs:96-121 | the loop that fills the object equals the specification, first failure included |
| Json.JsonMapToIValues | crates/it-json-serde/src/json_to_ivalues.rs:48-73 | the loop that removes members and pushes values equals the specification: every name found once, nothing left over |
| JsonLaws.EncodesExactlyTyped | crates/it-json-serde/src/ivalues_to_json.rs:45-127 | encoding succeeds if and only if the value has the type |
| JsonLaws.RoundTrip | crates/it-json-serde/src/json_to_ivalues.rs:132-209 | decoding what was encoded returns the value, byte arrays as arrays of bytes, exactly when its floats are finite and its records have distinct field names; otherwise it fails |
| JsonLaws.DecodesTyped | crates/it-json-serde/src/json_to_ivalues.rs:132-244 | whatever decodes is a value of the type, over cyclic record types too |
| JsonLaws.ArgumentsAreTyped | crates/it-json-serde/src/json_to_ivalues.rs:30-130 | a successful conversion gives as many arguments as the signature has, each of its type |
| JsonLaws.DecodedIsStable | crates/it-json-serde/src/json_to_ivalues.rs:132-244 | what was decoded can be encoded again and then decodes to the same value |
| JsonLaws.FormsDecodeAlike | crates/it-json-serde/src/json_to_ivalues.rs:211-244 | with distinct names the object form and the positional form decode alike at every level, failures included |
| JsonLaws.ArgumentFormsAlike | crates/it-json-serde/src/json_to_ivalues.rs:30-93 | the same for the arguments of a call |
| JsonLaws.ResultAsArgument | crates/it-json-serde/src/ivalues_to_json.rs:25-43 | a result passed on as the only argument of a call arrives as it was |
| JsonCall.JsonCallComputes | crates/it-json-serde/src/json_to_ivalues.rs:30-46 | whatever JSON decodes to arguments conforms to the signature and reaches the core function through the export adapter, the result goes back into JSON, and the call finishes if nothing stands in its way |
| JsonCall.EncodedArgumentsArrive | crates/it-json-serde/src/json_to_ivalues.rs:75-93 | values that were encoded as JSON, byte arrays included, arrive at the core function as they were |
| JsonCall.LoadedModuleAnswersJson | core/src/module/marine_module.rs:164-199 | the same for a generated and loaded module: the arguments are read against the interface it shows, and the callable of that name is what runs |
| MarineCalls.Marine.LookupModuleInterface | marine/src/marine.rs:250-299 | one lookup: its answer and what it leaves in the cache |
| InterfaceCache.CacheAgreesExactlyWhen | marine/src/marine.rs:258-296 | lookups under a module name agree with the loaded modules after every history if and only if no module exports a function of that name, save with the same interface |
| InterfaceCache.OneCallMisleads | marine/src/marine.rs:295-296 | in every other case one call of that function is enough to make a later lookup in the module go wrong |
| MarineCalls.JsonCallsCompute | marine/src/marine.rs:194-234 | over every history of calls: a JSON call of an exported function of a generated module fails on its arguments and runs nothing, or computes the core function of that name through lookup with cache, decoding, adapter, encoding and statistics; a finished call answers and clears the statistics, a trapped one is reported from the whole history |
| JsHeap.ObjectTable.Add | marine-js/npm-package/src/marine_js.js:26-33 | the handle was not live, the object is stored under it, everything else stays |
| JsHeap.ObjectTable.Drop | marine-js/npm-package/src/marine_js.js:14-18 | for every slot: a live handle is freed and a handle below 132 ignored, with a sound table; a slot that is already free leaves no sound free list |
| JsHeap.ObjectTable.Take | marine-js/npm-package/src/marine_js.js:20-24 | returns what the slot holds, the stored object for a live handle, and drops it the same way |
| JsHeap.ObjectTable.Borrow | marine-js/npm-package/src/marine_js.js:236-242 | pushes onto the borrow stack, or fails when it is full |
| JsHeap.ObjectTable.PopBorrow | marine-js/npm-package/src/marine_js.js:345-352 | ends the latest borrow and clears its slot |
| JsHeap.BorrowedCallBalanced | marine-js/npm-package/src/marine_js.js:345-352 | a call with a borrowed argument leaves the borrow stack as it was unless it was full, and then loses the newest outer borrow |
| JsHeap.AddHolds | marine-js/npm-package/src/marine_js.js:26-33 | the free list stays finite, repetition-free and exact, and live objects, constants and borrows keep their slots |
| JsHeap.DropHolds | marine-js/npm-package/src/marine_js.js:14-18 | the same for a dropped live handle |
| JsHeap.StepAsPromised | marine-js/npm-package/src/marine_js.js:14-33 | every allowed operation on the array behaves as on a map of objects and a stack |
| JsHeap.EveryRunAsPromised | marine-js/npm-package/src/marine_js.js:6-33 | so does every run from the initial table that gives back only live handles |
| JsHeap.DropIsSoundExactlyWhen | marine-js/npm-package/src/marine_js.js:14-18 | dropping a slot leaves a sound free list if and only if the slot holds a live handle or a constant; dropping a free one makes the list circular |
| TextEncoding.Utf8ReadsBack | marine-js/npm-package/src/marine_js.js:46-59 | the UTF-8 form reads back to the characters of the string |
| TextEncoding.Utf8Bound | marine-js/npm-package/src/marine_js.js:89-89 | three bytes per UTF-16 code unit always suffice |
| TextEncoding.EncodeIntoAll | marine-js/npm-package/src/marine_js.js:48-51 | encodeInto writes the whole string when it fits |
| TextEncoding.AsciiPrefix | marine-js/npm-package/src/marine_js.js:78-88 | an ASCII prefix is its own encoding and never splits a character |
| JsString.CopyAscii | marine-js/npm-package/src/marine_js.js:78-82 | the fast loop copies exactly the leading ASCII code units |
| JsString.EncodeString | marine-js/npm-package/src/marine_js.js:48-59 | both forms write exactly the encoding when it fits |
| JsString.EncodeRest | marine-js/npm-package/src/marine_js.js:84-94 | growing, encoding the remainder and shrinking leaves exactly the whole encoding |
| JsString.PassStringToWasm0 | marine-js/npm-package/src/marine_js.js:61-98 | with and without realloc the result is a block holding exactly the UTF-8 form, its length is reported, and no other block changes |
| Manifest.ByteEncoder.AddUtf8Field | crates/module-info-parser/src/manifest/tests.rs:51-56 | appends a length prefix and the field |
| Manifest.EncodeManifest | crates/module-info-parser/src/manifest/tests.rs:76-82 | five fields in order give the encoding |
| Manifest.ReadsExactlyFields | crates/module-info-parser/src/manifest/module_manifest.rs:90-132 | reading a field gives its content and length if and only if the bytes begin with that field's encoding and it fits the platform |
| Manifest.ReadAt | crates/module-info-parser/src/manifest/module_manifest.rs:63-86 | the two readers at an offset return a field and the next offset if and only if that field stands there in the required format |
| Manifest.ParsesExactlyEncodings | crates/module-info-parser/src/manifest/module_manifest.rs:38-60 | bytes parse to a manifest if and only if they are its encoding and its fields fit the platform and their formats |
| Manifest.TrailingBytesRejected | crates/module-info-parser/src/manifest/module_manifest.rs:45-47 | anything after the fifth field is reported as a remainder |
| Manifest.TruncationRejected | crates/module-info-parser/src/manifest/module_manifest.rs:101-132 | an encoding cut short anywhere is rejected |
| Manifest.HugeLengthReported | crates/module-info-parser/src/manifest/module_manifest.rs:101-119 | a length too large for the platform is reported with its value |
| MemoryLimits.MemoryLimiter.TryAllocate | crates/wasmtime-backend/src/store.rs:87-95 | grants what fits, otherwise only counts a reject |
| MemoryLimits.MemoryLimiter.MemoryGrowing | crates/wasmtime-backend/src/store.rs:99-107 | asks for the difference in bytes |
| MemoryLimits.MemoryLimiter.TableGrowing | crates/wasmtime-backend/src/store.rs:109-117 | asks for the difference times the width of a pointer |
| MemoryLimits.BudgetIsConserved | crates/wasmtime-backend/src/store.rs:75-118 | over every history of requests from all modules, bytes granted and bytes remaining make up the limit, and the counter is the refusals since the last finished call |
| MemoryLimits.RefusalIsExact | crates/wasmtime-backend/src/store.rs:87-95 | a request is refused exactly when it exceeds what remains, and then changes only the counter |
| MemoryLimits.OomReportedExactly | marine/src/marine.rs:380-402 | a failed call is reported as probably out of memory exactly for three kinds of errors with a refusal since the last finished call, up to the wrap of the counter |
| MarineCalls.HistoryHolds | core/src/marine_core.rs:202-211 | after any history of loads and unloads, a generated module whose entry stands meets what the theorem on JSON calls asks of it |
| MarineCalls.Marine.CallWithIValues | marine/src/marine.rs:173-191 | the outcome of the adapter that runs, the report on a failure in terms of the whole history; a finished call clears the counter |
| MarineCalls.Marine.CallWithJson | marine/src/marine.rs:194-234 | lookup, decoding, call and encoding with the failure of each: a failed lookup changes nothing, bad arguments leave at most a cache entry, the counter is cleared even when the result has no JSON form |
| LinkHistory.MarineCore.Load | core/src/marine_core.rs:108-130 | a load adds one entry, a failed load leaves the table as it was, whatever failed |
| LinkHistory.MarineCore.Unload | core/src/marine_core.rs:133-139 | removes one entry or reports that there is none |
| LinkHistory.EveryHistoryIsOrdered | core/src/marine_core.rs:108-139 | after every history each module calls only into instances of strictly earlier loads, all the way down |
| LinkHistory.ChainsAreShort | core/src/module/wit_instance.rs:96-138 | a chain of cross-module calls goes strictly back in load order and is no longer than the number of loads |
| LinkHistory.ReloadNeedsUnload | core/src/marine_core.rs:108-139 | in every history, between two successful loads of one name lies an unload of it |
| LinkHistory.LoadMakesInstance | core/src/module/marine_module.rs:104-162 | a generated module that links is an instance in the sense of the theorem on linked modules |
| LinkHistory.HistoryComputes | core/src/marine_core.rs:108-139 | in every history, a module loaded while its import's namespace holds a generated module computes that module's core function, and the call finishes if nothing stands in its way; its own entry keeps running in that instance, also after the namespace is unloaded or loaded anew |
| HostAbi.RunWValuesToIValues | core/src/host_imports/lifting/lift_ivalues.rs:46-114 | the loop over types and values equals the specification |
| HostAbi.DeclaredArgumentsLift | core/src/host_imports/utils.rs:20-31 | values in the declared shape are lifted, with none left over, if and only if no type is a byte array or S64 |
| HostAbi.LowerThenLift | core/src/host_imports/lowering/lower_ivalues.rs:25-70 | lowering then lifting is the identity at every integer width, for booleans and floats, and for values in memory as far as memory keeps them |
| HostAbi.GuestCells.PassOutput | core/src/host_imports/imports.rs:117-208 | the dispatch on the result's shape with its writes to the guest's cells equals the specification, missing helpers included |
| HostAbi.OutputShapeIsDeclared | core/src/host_imports/utils.rs:33-44 | for every guest the answer has the declared shape if and only if the output passes and its type is neither a byte array nor S64, or it does not and one I32 is declared; the unimplemented case is out of reach |
| HostAbi.OutputReachesGuest | core/src/host_imports/imports.rs:117-208 | an output that passes is read back by the guest as it was, from its cells or the answer; otherwise one code tells a missing allocator, a missing setter and a failed lowering apart, and the cells are cleared only for the last |

## Left out

- The engines, wasm-bindgen, walrus, wasmparser, the adapter interpreter and the memory lowering library: their effects are the assumptions above.
- Async calls, locks and the uninitialised shared instance used while linking: calls are plain steps.
- Functions with more than one result: unsupported in the original too.
- Table indexes narrowed to 32 bits: indexes are unbounded numbers, so a module with more than 2^32 entries is not covered.
- Rounding of floats, also between 32 and 64 bits and from large integers, and the text of JSON: a JSON number is an integer or a real number.
- The texts of error messages: errors are told apart by kind.
- UTF-8, semantic version and RFC 3339 parsing of manifest fields: arbitrary predicates in `Manifest.Platform`.
- The content of a stub record: it is one fixed placeholder.
- Growth of memory while a string is being written, and failing allocations in the browser: the allocator's contract is that a block of the requested size is returned.
- Wasm start functions are one success flag of a load; what they do to other instances is not modelled.
- Marine's calls while modules are loaded or unloaded: the set of modules is fixed in `MarineCalls`. What growth requests an engine makes and what a failed call leaves in memory are inputs there.
- Configuration files, WASI setup, mounted binaries, command line, log filtering and the versions of call parameters: input and output or field copies.
- The rest of the JavaScript glue: generated import shims.
- JsHeap.ObjectTable.Drop: a handle beyond the end of the array, which was never given out, is not covered; writing there would leave holes in the original's array.
- JsHeap.ObjectTable.Take: the same.
- JsHeap.EveryRunAsPromised: says nothing about runs that give back a handle that is not live; JsHeap.DropIsSoundExactlyWhen and JsHeap.DroppingTwiceAliases show why.
- LinkMeaning.LinkPreservesMeaning: covers signatures with at most one result and core functions that read and write raw values as the SDK does.
