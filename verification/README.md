# Fusion, verified

Models and proofs for the parts of Fusion whose behaviour is hardest to see from the code alone.

- **The AML engine** (`Crates/fusion-firmware/aml`). Bytecode is loaded into a flat table of records that forms
  a tree (`Names`, `Namespace`, `LoaderTerms`, `Loader`, `LoaderMachine`, `FieldLists`). Methods are evaluated over
  activation frames, runtime tables and host bytes (`Values`, `SlotTable`, `RuntimeState`, `Elements`, `Fields`,
  `HostCells`, `Frames`, `Evaluator`, `Evaluation`). Lifecycle passes call them (`Vm`). `Programs` gives method
  bodies a syntax of their own, a spelling in bytecode and a meaning in exact arithmetic; the methods of `Evaluation`
  are proved to compute that meaning when their bytes spell a program, and to keep their promises for any bytes at
  all. `ProgramBounds`, `ProgramElements` and `Scoping` are laws of that meaning: when programs finish, what they read
  back from buffers and packages, and where the names in a body lead. `LoadTime` compares the loader's own evaluation
  of If conditions with it. `Compilation` joins the two ends: declarations, nested to any depth, spelled in a block,
  loaded, and run; `LoadedFields` follows a field from its declaration to the host's bits.
- **Shared-state protocols** (`Crates/fusion-pal/sys`, `Crates/fusion-firmware/module`). The deferred-dispatch
  broker (`DispatchBroker`), and one-time initialisation in its two forms, the vector broker with its lock and the
  FDXE registry cache without one (`OnceInit`), each with any number of threads taking one atomic step at a time;
  the theorems are about every list of steps.
- **Smaller cores.** The call graph read from a disassembly (`CallGraph`), compute-kernel admission (`Pcu`), the
  FDXE registry (`Fdxe`), and the kernel wire protocol with its client (`KernelWire`).

Machine words are natural numbers with their bits and wrap-around written out (`Bits`); errors are values
(`Wrappers`). `Error.Fault` stands for a Rust panic: a slice with reversed or excessive bounds, an over-wide
shift, an arithmetic overflow. The last two panic only in builds with overflow checks, and the model is of
those; a build without them wraps the shift or the sum and carries on with a wrong value.

`Error.OutOfFuel` never occurs in Fusion: While loops and static Buffers whose size names another static value
need not end, so the evaluator takes a bound on the turns of each loop and on such nesting, and says in its
`starved` flag whether the bound was ever reached.

Some properties one would expect do not hold of the code. The model follows the code, and the exact condition is
proved:

- A request that `request_runtime_dispatch` accepted can stay unanswered. `DispatchBroker.StrandedRequestExists`
  and `DroppedRequestExists` give two interleavings; `UnansweredIffLost` says exactly when it happens.
- A rooted null name resolves to the scope it is read in, not to the root, and a null name after carets does not
  climb: `Names.RootedNameIgnoresScope` and `CaretsClimb`, with `RootedNullNameStaysInScope` and
  `CaretNullNameStaysInScope` as instances.
- Fields of one list overlap once the 32-bit bit offset saturates: `Loader.FieldsCanOverlap` gives a list,
  `FieldsOfOneListDisjoint` the condition on the list.
- A field that does not fit one 64-bit word after its in-byte shift cannot be accessed, although its width is at
  most 64: `Fields.UnalignedWordRefused` and `RefusedIffTooWide`.
- A WriteAsOnes or WriteAsZeros store overwrites neighbours that share its bytes: `Fields.FillChangesSibling` shows
  one, `SiblingSurvivesFill` says exactly which survive.
- The loader evaluates If conditions in 64 bits even in a 32-bit namespace, so it can choose another branch than
  the evaluator would: `LoadTime.EvaluatorsDiffer` gives a condition, `SameBranchIff` says exactly when the branch is
  the same.

## Model

| member | source | states |
|---|---|---|
| `Fields.Host.ReadRegionByte` | Crates/fusion-firmware/aml/eval.rs:1768-1792 | a byte is read exactly when the region has a base and its address, base plus offset in the region's own space, neither overflows nor is missing from the host; the byte is the one in that cell |
| `Fields.Host.WriteRegionByte` | Crates/fusion-firmware/aml/eval.rs:1794-1822 | a successful write changes the cell at base plus offset in the region's own space and no other; a failed one changes nothing |
| `Fields.ByteCoverMask` | Crates/fusion-firmware/aml/eval.rs:1832-1847 | the mask has exactly the bits of the byte that lie inside the field |
| `Fields.ReadFieldBits` | Crates/fusion-firmware/aml/eval.rs:1479-1510 | a read succeeds exactly when the field is in range, backed by the host and fits one shifted 64-bit word; the result is the number the field's bits spell and no more; a failure is the first one met |
| `Fields.WriteFieldBits` | Crates/fusion-firmware/aml/eval.rs:1545-1591 | a write succeeds under exactly the same condition; afterwards every cell of the host is as the store rule says, also when it stops half way |
| `Fields.WriteFieldBytes` | Crates/fusion-firmware/aml/eval.rs:1567-1591 | the byte loop reaches every byte of the field or stops with the error of the first it cannot reach |
| `Fields.Load` | Crates/fusion-firmware/aml/eval.rs:1479-1510 | a load is defined on exactly the accessible fields, and is the number their bits spell |
| `Fields.Store` | Crates/fusion-firmware/aml/eval.rs:1545-1591 | a store is defined on exactly the same fields, and has the effect described bit by bit and cell by cell |
| `Fields.StoredOnce` | Crates/fusion-firmware/aml/eval.rs:1545-1591 | that description leaves no choice: it fixes the whole host memory |
| `Fields.AccessIff` | Crates/fusion-firmware/aml/eval.rs:1486-1506 | the byte-by-byte access check passes exactly for the accessible fields |
| `Fields.RefusedIffTooWide` | Crates/fusion-firmware/aml/eval.rs:1501-1505 | a field inside its region, on mapped bytes and at most 64 bits wide, is refused if and only if its bits do not fit one word after the in-byte shift |
| `Fields.UnalignedWordRefused` | Crates/fusion-firmware/aml/eval.rs:1501-1505 | a concrete refusal: a 64-bit field one bit into a nine-byte region |
| `Fields.FillChangesSibling` | Crates/fusion-firmware/aml/eval.rs:1574-1587 | a concrete WriteAsZeros store that turns a neighbouring field from 1 to 0 |
| `Fields.WriteFieldByte` | Crates/fusion-firmware/aml/eval.rs:1573-1589 | one turn of the store loop rewrites its byte as the update rule asks and leaves all others |
| `Fields.LoadAfterStore` | Crates/fusion-firmware/aml/eval.rs:1479-1591 | a load after a store of the same field gives the stored value cut to the field's width, for every update rule |
| `Fields.SiblingSurvivesPreserve` | Crates/fusion-firmware/aml/eval.rs:1545-1591 | a Preserve store leaves every disjoint field of the region as it was, even inside a shared byte |
| `Fields.SiblingSurvivesFill` | Crates/fusion-firmware/aml/eval.rs:1577-1587 | a WriteAsOnes or WriteAsZeros store leaves a disjoint field unchanged if and only if the bits it shares a byte with were already filled that way |
| `Fields.StoredRegionBit` | Crates/fusion-firmware/aml/eval.rs:1573-1591 | after a store every bit of the region is the field's bit, the filler of a touched byte, or what it was |
| `Fields.SpelledOnce` | Crates/fusion-firmware/aml/eval.rs:1479-1510 | the bits of a field spell one number only |
| `Fields.WidthMaskBit` | Crates/fusion-firmware/aml/eval.rs:1824-1830 | the width mask has exactly the low bits of the width |
| `HostCells.ByteIsCell` | Crates/fusion-firmware/aml/eval.rs:1768-1792 | byte k of a region is the host's cell k past the region's base, in the region's own space |
| `HostCells.LoadReadsCells` | Crates/fusion-firmware/aml/eval.rs:1479-1510 | bit n of a load is bit (start + n) mod 8 of the cell (start + n) / 8 past the base |
| `HostCells.StoreWritesCells` | Crates/fusion-firmware/aml/eval.rs:1545-1591 | a store writes exactly the cells from the field's first byte to its last, counted from the base: the field's own bits, and around them what the update rule says; every other cell of the host is as it was |
| `HostCells.StoreLeavesOthers` | Crates/fusion-firmware/aml/eval.rs:1479-1591 | a store through one region leaves every field of any other region that shares no cell with it, readable or not |
| `HostCells.SameCellsSameLoad` | Crates/fusion-firmware/aml/eval.rs:1479-1510 | a load depends on nothing but the cells of its field |
| `HostCells.SameBitsEitherRegion` | Crates/fusion-firmware/aml/eval.rs:1479-1510 | the same bits of the host read the same through either of two regions that cover them |
| `HostCells.StoreThenLoadEitherRegion` | Crates/fusion-firmware/aml/eval.rs:1479-1591 | what a store writes through one region a load reads back through any other that covers the same bits |
| `Names.PathSlots.Push` | Crates/fusion-firmware/aml/name.rs:97-105 | push appends one segment, fails exactly when full, and keeps unused slots blank |
| `Names.PathSlots.Pop` | Crates/fusion-firmware/aml/name.rs:107-115 | pop drops the last segment, fails exactly on the root, and blanks the freed slot |
| `Names.EqualSlotsIffEqualViews` | Crates/fusion-firmware/aml/name.rs:34-39 | slot-wise equality of two paths is equality of their segment sequences, because unused slots stay blank |
| `Names.Prefix` | Crates/fusion-firmware/aml/name.rs:83-95 | a prefix has the first segments and blank slots after them |
| `Names.Resolve` | Crates/fusion-firmware/aml/name.rs:117-143 | resolving a name gives the path that the anchor, the carets and the segments define, or the right error |
| `Names.Climb` | Crates/fusion-firmware/aml/name.rs:128-134 | one caret climbs one segment; more carets than segments is an invalid name |
| `Names.Descend` | Crates/fusion-firmware/aml/name.rs:136-142 | segments are appended in order; more than sixteen overflow |
| `Names.RootedNameIgnoresScope` | Crates/fusion-firmware/aml/name.rs:117-143 | a rooted name means the same from every scope if and only if it is not null or the scope is the root |
| `Names.RootedNullNameStaysInScope` | Crates/fusion-firmware/aml/name.rs:117-121 | a concrete rooted null name that stays in the scope it is read in |
| `Names.CaretsClimb` | Crates/fusion-firmware/aml/name.rs:117-134 | a caret name climbs as many scopes as it has carets if and only if it is not null |
| `Names.CaretNullNameStaysInScope` | Crates/fusion-firmware/aml/name.rs:117-121 | a concrete caret null name that stays in the scope it is read in |
| `Names.ScanName` | Crates/fusion-firmware/aml/name.rs:218-275 | the byte scan agrees with the grammar of encoded names, and its saturating caret counter never loses a caret of an accepted name |
| `Names.ScanBody` | Crates/fusion-firmware/aml/name.rs:238-264 | null, single, dual and multiple name bodies are recognised with their exact lengths |
| `Names.ScanSegments` | Crates/fusion-firmware/aml/name.rs:298-307 | every four bytes become one valid segment, in order |
| `Names.NameRoundTrip` | Crates/fusion-firmware/aml/name.rs:218-307 | any anchor, caret count and segment list whose encoding fits 255 bytes parses back with exact consumption, whatever follows |
| `Names.ScanPkg` | Crates/fusion-firmware/aml/bytecode.rs:128-154 | the shift-and-or loop computes the package length the specification defines |
| `Names.ParsePkg` | Crates/fusion-firmware/aml/bytecode.rs:128-154 | an accepted package length takes one to four bytes and is below 2^28 |
| `Names.PkgRoundTrip` | Crates/fusion-firmware/aml/bytecode.rs:128-154 | every value in every form that can hold it parses back, whatever follows |
| `Names.ResolveLookupPath` | Crates/fusion-firmware/aml/namespace.rs:88-111 | the lookup loop computes the lookup rule |
| `Names.LookupIsNearest` | Crates/fusion-firmware/aml/namespace.rs:88-111 | lookup gives the candidate of the nearest enclosing scope that has a record, else the root candidate, and fails exactly when a candidate cannot be formed first |
| `Namespace.Find` | Crates/fusion-firmware/aml/namespace.rs:79-86 | the first record with a path, or none has it |
| `Namespace.FindId` | Crates/fusion-firmware/aml/namespace.rs:72-77 | the first record with an id, or none has it |
| `Namespace.ScopesAreUnique` | Crates/fusion-firmware/aml/loader.rs:716-748 | in a loaded tree no two scope-capable records share a path |
| `Namespace.AncestorsArePrefixes` | Crates/fusion-firmware/aml/loader.rs:716-804 | the ancestor n levels up has the record's path without its last n segments, and is scope-capable |
| `Namespace.CodeBytesOfMethod` | Crates/fusion-firmware/aml/namespace.rs:114-119 | every loaded method's code can be fetched, and it is the tail of its MethodOp package |
| `Loader.Insert` | Crates/fusion-firmware/aml/loader.rs:776-810 | insertion appends one record with the next id, and succeeds exactly when the table has room and the id counter is not at its top |
| `Loader.InsertUnique` | Crates/fusion-firmware/aml/loader.rs:750-774 | a checked kind is inserted exactly when its path is new and there is room |
| `Loader.InsertKeepsTree` | Crates/fusion-firmware/aml/loader.rs:776-804 | a record below an existing scope keeps the table a tree |
| `Loader.InsertKeepsSound` | Crates/fusion-firmware/aml/loader.rs:750-804 | and keeps methods and their bodies as they were |
| `Loader.EnsureScope` | Crates/fusion-firmware/aml/loader.rs:705-748 | every missing scope of a path is added, outermost first, and the table stays sound; only scopes on the path are added |
| `Loader.Declare` | Crates/fusion-firmware/aml/loader.rs:750-774 | a declaration is the last record added, with the kind, path, body and payload given, after the missing scopes above it and nothing else |
| `Loader.AliasOp` | Crates/fusion-firmware/aml/loader.rs:245-263 | an Alias is added at the path its second name means, below the scopes that were missing, and the tree is kept |
| `Loader.NameOp` | Crates/fusion-firmware/aml/loader.rs:265-294 | a Name is added at the path its name means, below the scopes that were missing, and the tree is kept |
| `Loader.ExternalOp` | Crates/fusion-firmware/aml/loader.rs:344-369 | an External is added exactly when its path is not known yet; otherwise at most missing scopes are added, and the tree is kept |
| `Loader.CreateFieldOp` | Crates/fusion-firmware/aml/loader.rs:371-395 | a buffer field is added at the path named after its operands, and the tree is kept |
| `Loader.MutexOp` | Crates/fusion-firmware/aml/loader.rs:530-548 | a Mutex is added at the path its name means, and the tree is kept |
| `Loader.EventOp` | Crates/fusion-firmware/aml/loader.rs:550-566 | an Event is added at the path its name means, and the tree is kept |
| `Loader.OpRegionOp` | Crates/fusion-firmware/aml/loader.rs:568-600 | an OperationRegion is added at the path its name means, with or without constant bounds, and the tree is kept |
| `Loader.FieldEntries` | Crates/fusion-firmware/aml/loader.rs:916-988 | the fields of one list follow one another: each starts where the earlier ones end, in the scope and region of the list |
| `Loader.FieldsLaidOut` | Crates/fusion-firmware/aml/loader.rs:916-988 | the fields added are the named entries of the list in order, each as wide as it says and at the exact sum of the skips and widths before it, saturated at 32 bits |
| `Loader.FieldsOfOneListDisjoint` | Crates/fusion-firmware/aml/loader.rs:916-988 | two non-empty fields of one list are disjoint if and only if the skips and widths up to and including the first of them add up to at most 2^32 - 1 |
| `Loader.FieldsCanOverlap` | Crates/fusion-firmware/aml/loader.rs:930-940 | a concrete list of seventeen skips and two fields that puts both fields on the same bits |
| `Loader.FieldOp` | Crates/fusion-firmware/aml/loader.rs:602-630 | a Field list keeps the tree |
| `Loader.IndexFieldOp` | Crates/fusion-firmware/aml/loader.rs:632-659 | an IndexField list keeps the tree |
| `Loader.FieldOpLaysOut` | Crates/fusion-firmware/aml/loader.rs:602-630 | a Field object lays out its list in the region its name resolves to, in the current scope, with the flags of the list |
| `Loader.IndexFieldOpLaysOut` | Crates/fusion-firmware/aml/loader.rs:632-659 | an IndexField object lays out its list in no region |
| `Loader.UpdateRuleBits` | Crates/fusion-firmware/aml/loader.rs:1050-1056 | the update rule is in bits 5 and 6 of the flags: 01 fills with ones, 10 with zeros, both other patterns preserve |
| `Loader.AccessBits` | Crates/fusion-firmware/aml/loader.rs:1038-1048 | the low four bits name the access width in bytes, doubling from 1 to 8, or buffer access, or any access |
| `Loader.SpaceBytes` | Crates/fusion-firmware/aml/loader.rs:1020-1036 | each of the twelve known bytes declares its own address space and every other byte a vendor's own, both ways |
| `FieldLists.ListLaysOut` | Crates/fusion-firmware/aml/loader.rs:916-988 | any list of gaps, access entries, connections and named fields, once spelled, lays out exactly its named fields, each at the sum of the gaps and widths before it |
| `FieldLists.ListLoads` | Crates/fusion-firmware/aml/loader.rs:602-630 | so a Field object that spells such a list loads one record for each named field, in order, with its width and its exact offset saturated at 32 bits |
| `Loader.MethodOp` | Crates/fusion-firmware/aml/loader.rs:422-471 | a Method is added at the path its name means; its recorded body is the tail of its package, after every body before it in the block |
| `Loader.ScopeOp` | Crates/fusion-firmware/aml/loader.rs:397-420 | a Scope keeps the tree and the bodies in order, whatever is nested in it |
| `Loader.ScopedObjectOp` | Crates/fusion-firmware/aml/loader.rs:661-703 | so do Device, Processor, PowerResource and ThermalZone |
| `Loader.ScopedObjectBegins` | Crates/fusion-firmware/aml/loader.rs:661-703 | each is added first, at the path its name means, with the rest of its package as its body |
| `Loader.IfOp` | Crates/fusion-firmware/aml/loader.rs:296-342 | so does a load-time If with or without Else |
| `Loader.ExtOp` | Crates/fusion-firmware/aml/loader.rs:473-528 | so does every extended opcode |
| `Loader.TermObject` | Crates/fusion-firmware/aml/loader.rs:208-243 | so does every term object |
| `Loader.Walk` | Crates/fusion-firmware/aml/loader.rs:183-206 | walking a byte range keeps the tree and leaves every recorded body of the block inside what has been read |
| `Loader.LoadBlocks` | Crates/fusion-firmware/aml/loader.rs:146-181 | blocks are walked in turn, each at the root |
| `Loader.LoadAll` | Crates/fusion-firmware/aml/loader.rs:120-181 | after any successful load record i has id i, its parent is an earlier scope-capable record with its path minus one segment, checked paths are new, and method bodies are package tails that never overlap |
| `LoadTime.LoaderComputes` | Crates/fusion-firmware/aml/loader.rs:845-914 | the loader computes the 64-bit value of every condition its bytes spell, consuming exactly its bytes |
| `LoadTime.EvaluatorComputes` | Crates/fusion-firmware/aml/eval.rs:397-536 | the run-time evaluator gives every load-time condition the value computed from its leaves cut to the integer width |
| `LoadTime.SameBranchIff` | Crates/fusion-firmware/aml/loader.rs:296-342 | from the same bytes the loader chooses the branch the evaluator would if and only if cutting the leaves to the width does not change whether the condition is zero |
| `LoadTime.FittingLeavesUncut` | Crates/fusion-firmware/aml/loader.rs:845-914 | cutting changes nothing where the leaves fit the width, and in a 64-bit namespace they always fit |
| `LoadTime.EvaluatorsAgree` | Crates/fusion-firmware/aml/loader.rs:845-914 | so load-time and run-time evaluation agree on every condition whose leaves fit |
| `LoadTime.AgreeIffLeavesFit` | Crates/fusion-firmware/aml/loader.rs:845-914 | they agree on a condition and all its parts if and only if its leaves fit the width |
| `LoadTime.EvaluatorsDiffer` | Crates/fusion-firmware/aml/loader.rs:882-900 | in every 32-bit namespace a concrete condition is false to the loader and true to the evaluator |
| `LoadTime.IfReadsItsBranch` | Crates/fusion-firmware/aml/loader.rs:296-342 | whatever follows it, a load-time If reads its body exactly when its condition is not zero, and its Else, if it has one, exactly when it is zero; either way both packages are consumed and nothing more |
| `LoadTime.LoaderStepsOver` | Crates/fusion-firmware/aml/loader.rs:1107-1160 | a term argument that spells a constant, text, name, assignment, arithmetic other than Multiply, comparison, Increment, Decrement or Not is stepped over exactly, and its value is known exactly when it is a constant |
| `LoadTime.DataSteppedOver` | Crates/fusion-firmware/aml/loader.rs:1162-1186 | so is a declared text, buffer or package |
| `LoaderTerms.TermArg` | Crates/fusion-firmware/aml/loader.rs:1107-1160 | a skipped term takes at least one byte |
| `LoaderTerms.DataObject` | Crates/fusion-firmware/aml/loader.rs:1162-1180 | a data object takes at least one byte |
| `LoaderMachine.NamespaceLoader.NextNodeId` | Crates/fusion-firmware/aml/loader.rs:806-810 | ids are handed out in order |
| `LoaderMachine.NamespaceLoader.PushRecord` | Crates/fusion-firmware/aml/loader.rs:786-804 | pushes one record or fails exactly when storage is full |
| `LoaderMachine.NamespaceLoader.FindRecord` | Crates/fusion-firmware/aml/loader.rs:812-826 | the scan finds the first record with the path |
| `LoaderMachine.NamespaceLoader.InsertRecord` | Crates/fusion-firmware/aml/loader.rs:776-784 | inserts in place exactly what the table rule says |
| `LoaderMachine.NamespaceLoader.EnsureScopeLikePath` | Crates/fusion-firmware/aml/loader.rs:716-748 | the loop over a path's prefixes builds the table the rule defines and returns the innermost id |
| `LoaderMachine.NamespaceLoader.ParseFieldEntries` | Crates/fusion-firmware/aml/loader.rs:916-988 | the field loop builds the table the rule defines |
| `LoaderMachine.NamespaceLoader.WalkTermList` | Crates/fusion-firmware/aml/loader.rs:183-206 | the offset loop, parsing each term object in place, leaves the table the walk defines, or its error |
| `LoaderMachine.NamespaceLoader.ParseTermObject` | Crates/fusion-firmware/aml/loader.rs:208-243 | the opcode dispatch: changes the table in place to the one the table rules define, or fails with their error |
| `LoaderMachine.NamespaceLoader.ParseAliasOp` | Crates/fusion-firmware/aml/loader.rs:245-263 | Alias: changes the table in place to the one the table rules define, or fails with their error |
| `LoaderMachine.NamespaceLoader.ParseNameOp` | Crates/fusion-firmware/aml/loader.rs:265-294 | Name: changes the table in place to the one the table rules define, or fails with their error |
| `LoaderMachine.NamespaceLoader.ParseIfOp` | Crates/fusion-firmware/aml/loader.rs:296-342 | If with or without Else: changes the table in place to the one the table rules define, or fails with their error |
| `LoaderMachine.NamespaceLoader.ParseExternalOp` | Crates/fusion-firmware/aml/loader.rs:344-369 | External: changes the table in place to the one the table rules define, or fails with their error |
| `LoaderMachine.NamespaceLoader.ParseCreateFieldLikeOp` | Crates/fusion-firmware/aml/loader.rs:371-395 | the operand loop and the buffer field: changes the table in place to the one the table rules define, or fails with their error |
| `LoaderMachine.NamespaceLoader.ParseScopeOp` | Crates/fusion-firmware/aml/loader.rs:397-420 | Scope: changes the table in place to the one the table rules define, or fails with their error |
| `LoaderMachine.NamespaceLoader.ParseMethodOp` | Crates/fusion-firmware/aml/loader.rs:422-471 | Method, under an id taken beforehand: changes the table in place to the one the table rules define, or fails with their error |
| `LoaderMachine.NamespaceLoader.ParseExtOp` | Crates/fusion-firmware/aml/loader.rs:473-528 | the extended dispatch: changes the table in place to the one the table rules define, or fails with their error |
| `LoaderMachine.NamespaceLoader.ParseMutexOp` | Crates/fusion-firmware/aml/loader.rs:530-548 | Mutex: changes the table in place to the one the table rules define, or fails with their error |
| `LoaderMachine.NamespaceLoader.ParseEventOp` | Crates/fusion-firmware/aml/loader.rs:550-566 | Event: changes the table in place to the one the table rules define, or fails with their error |
| `LoaderMachine.NamespaceLoader.ParseOpRegionOp` | Crates/fusion-firmware/aml/loader.rs:568-600 | OperationRegion: changes the table in place to the one the table rules define, or fails with their error |
| `LoaderMachine.NamespaceLoader.ParseFieldOp` | Crates/fusion-firmware/aml/loader.rs:602-630 | Field: changes the table in place to the one the table rules define, or fails with their error |
| `LoaderMachine.NamespaceLoader.ParseIndexFieldOp` | Crates/fusion-firmware/aml/loader.rs:632-659 | IndexField: changes the table in place to the one the table rules define, or fails with their error |
| `LoaderMachine.NamespaceLoader.ParsePkgScopedNamedObject` | Crates/fusion-firmware/aml/loader.rs:661-703 | Device, Processor, PowerResource and ThermalZone: changes the table in place to the one the table rules define, or fails with their error |
| `LoaderMachine.NamespaceLoader.InsertUniqueRecord` | Crates/fusion-firmware/aml/loader.rs:750-774 | the duplicate check and the insertion: changes the table in place to the one the table rules define, or fails with their error |
| `LoaderMachine.NamespaceLoader.Load` | Crates/fusion-firmware/aml/loader.rs:123-181 | a fresh loader ends with the table the whole load defines, or its error |
| `Compilation.DeclLoads` | Crates/fusion-firmware/aml/loader.rs:208-243 | a spelled declaration of an integer, mutex, region, field, method, Device or Scope, in whatever scope it stands and with whatever is nested in it, is loaded as exactly its records |
| `Compilation.BlockLoads` | Crates/fusion-firmware/aml/loader.rs:146-181 | a definition block that spells any nest of declarations, differently named within each scope, loads to exactly the table of those declarations |
| `Compilation.RecordIs` | Crates/fusion-firmware/aml/loader.rs:776-804 | record i of that table is that of declaration i in order of nesting: its path is its scope and its name, a method's body is its code, a field's region, bits and rule and a region's place are as declared |
| `Compilation.PathLeadsToIt` | Crates/fusion-firmware/aml/namespace.rs:79-86 | and its path leads to it and to no record before it |
| `Compilation.MethodInScope` | Crates/fusion-firmware/aml/eval.rs:101-148 | the body of a declared method begins its lookups in the scope the method is declared in, however deep |
| `Compilation.LoadedIsCompiled` | Crates/fusion-firmware/aml/loader.rs:422-471 | in a namespace loaded from such a block every method whose code spells its source is compiled, which is what the evaluator's theorem asks for |
| `Compilation.LoadAndRun` | Crates/fusion-firmware/aml/eval.rs:101-148 | loading the block and running a method, at the root or in any nested Device or Scope, gives the result and leaves the tables and the host's bytes that the method's source means when its names are looked up from the scope it is declared in |
| `LoadedFields.LoadedRegion` | Crates/fusion-firmware/aml/loader.rs:602-630 | a loaded field lies in the region it names, with the address space, base and length that the block declares for it |
| `LoadedFields.StoreByFlags` | Crates/fusion-firmware/aml/eval.rs:1545-1591 | a program's store into a loaded field sets the field's bits to those of the number; every other bit of the bytes it touches is set, cleared or kept as bits 5 and 6 of the declared flags say; no other byte of the region changes |
| `Scoping.BodyStartsAtParent` | Crates/fusion-firmware/aml/eval.rs:854-894 | in every well-formed table a method's body begins its lookups at the path of the method record's parent |
| `Scoping.SiblingFound` | Crates/fusion-firmware/aml/namespace.rs:88-112 | a name of one segment looked up from there leads to the record declared beside the method, when there is one |
| `Scoping.LookedForOutside` | Crates/fusion-firmware/aml/namespace.rs:88-112 | a name not declared in a scope means there what it means in the scope around it |
| `Scoping.CallReadsSibling` | Crates/fusion-firmware/aml/eval.rs:564-634 | so a called method that returns such a name returns the current value of what is declared beside it, whatever scope it is called from |
| `Scoping.CallWritesSibling` | Crates/fusion-firmware/aml/eval.rs:920-942 | and one that stores into it changes that object and nothing else |
| `Scoping.CallsNest` | Crates/fusion-firmware/aml/eval.rs:805-819 | a call made at depth 63 runs the body, one made at depth 64 is refused |
| `Scoping.EndlessCallsFail` | Crates/fusion-firmware/aml/eval.rs:805-852 | a method that only calls itself always ends in that error |
| `SlotTable.PutRefinesMap` | Crates/fusion-firmware/aml/state.rs:111-131 | a slot table is a bounded map: a write updates it, and fails exactly when it is full and lacks the key |
| `SlotTable.ViewSize` | Crates/fusion-firmware/aml/state.rs:111-131 | a table is full exactly when its map is as large as the table |
| `RuntimeState.IntegersRefineMap` | Crates/fusion-firmware/aml/state.rs:98-131 | over any calls from empty tables the integers are a bounded map, and the reply to each write is an error exactly when the map is full and lacks the node |
| `RuntimeState.AcquiresAlternate` | Crates/fusion-firmware/aml/state.rs:293-334 | over any calls, successful acquires and releases of a mutex strictly alternate, and it is held exactly in between |
| `RuntimeState.BufferHandlesDistinct` | Crates/fusion-firmware/aml/state.rs:156-177 | no two calls return the same buffer handle, and a handle stays valid with its length for ever |
| `RuntimeState.PackageHandlesDistinct` | Crates/fusion-firmware/aml/state.rs:133-154 | no two calls return the same package handle, and a handle stays valid with its length for ever |
| `RuntimeState.CopyFits` | Crates/fusion-firmware/aml/state.rs:273-291 | over any calls a copy shows the source cut or zero-padded to the buffer's length, changes no other buffer, and a self-copy changes nothing |
| `RuntimeState.CopyOntoItself` | Crates/fusion-firmware/aml/state.rs:273-291 | copying a buffer's readable bytes onto itself is the identity, since bytes past the length stay zero |
| `RuntimeState.PerformKeeps` | Crates/fusion-firmware/aml/state.rs:98-334 | every call keeps one slot per node, handles equal to slot indices, zero bytes past each buffer's length, and never frees a slot |
| `RuntimeState.Tables.ReadInteger` | Crates/fusion-firmware/aml/state.rs:98-109 | the scan reads the map |
| `RuntimeState.Tables.WriteInteger` | Crates/fusion-firmware/aml/state.rs:111-131 | the one-pass loop does exactly the call's effect |
| `RuntimeState.Tables.CreatePackage` | Crates/fusion-firmware/aml/state.rs:133-154 | the loop takes the first empty slot whose index fits a handle |
| `RuntimeState.Tables.CreateBuffer` | Crates/fusion-firmware/aml/state.rs:156-177 | the loop takes the first empty slot whose index fits a handle |
| `RuntimeState.Tables.WritePackageValue` | Crates/fusion-firmware/aml/state.rs:217-237 | writes one element inside the package's length, or fails |
| `RuntimeState.Tables.WriteBufferByte` | Crates/fusion-firmware/aml/state.rs:252-271 | writes one byte inside the buffer's length, or fails |
| `RuntimeState.Tables.CopyBytesIntoBuffer` | Crates/fusion-firmware/aml/state.rs:273-291 | does exactly the copy's effect |
| `RuntimeState.Tables.TryAcquireMutex` | Crates/fusion-firmware/aml/state.rs:293-316 | does exactly the acquire's effect: granted, refused or full |
| `RuntimeState.Tables.ReleaseMutex` | Crates/fusion-firmware/aml/state.rs:318-334 | does exactly the release's effect, and fails when the mutex is not held |
| `Values.MakeInteger` | Crates/fusion-firmware/aml/value.rs:46-51 | an integer of a namespace always fits the namespace's width |
| `Values.ApplyIsExact` | Crates/fusion-firmware/aml/eval.rs:476-506 | wrapping at 64 bits and narrowing equals exact arithmetic modulo the width, for every operator and all operands |
| `Values.InvertedBits` | Crates/fusion-firmware/aml/eval.rs:507-514 | a narrowed Not flips exactly the bits of the width |
| `Values.TypeNumbers` | Crates/fusion-firmware/aml/eval.rs:1346-1355 | each kind of object has its own type number, wherever its contents are kept |
| `Values.FalseValues` | Crates/fusion-firmware/aml/value.rs:75-88 | the values that count as false are zero, nothing, and empty texts, buffers and packages given in place |
| `Values.WidthByRevision` | Crates/fusion-firmware/aml/value.rs:20-26 | integers have 32 bits before table revision 2 and 64 from then on |
| `Elements.ReadAfterPut` | Crates/fusion-firmware/aml/state.rs:196-271 | after a store into an element that element reads as the value stored and every other element of every buffer and package as before |
| `Elements.PutIffReadable` | Crates/fusion-firmware/aml/state.rs:196-271 | an element can be stored exactly when it can be read and the value is an integer, or a buffer into a package |
| `Elements.NewBufferReads` | Crates/fusion-firmware/aml/eval.rs:1128-1159 | a new buffer reads as the bytes it was given, then zeros, up to its length and no further, and nothing else changes |
| `Elements.NewPackageReads` | Crates/fusion-firmware/aml/eval.rs:1093-1126 | a new package has as many elements as asked for, none of them set, and nothing else changes |
| `Elements.FilledReads` | Crates/fusion-firmware/aml/eval.rs:1281-1313 | a filled buffer reads as the bytes of the value it was filled from, then zeros, and nothing else changes |
| `ProgramElements.ReadAfterStore` | Crates/fusion-firmware/aml/eval.rs:779-803 | after Store into Index, Index of the same operands gives the value stored, cut to the width and in a buffer to its low byte, and Index of any other element gives what it gave before |
| `ProgramElements.FilledInOrder` | Crates/fusion-firmware/aml/eval.rs:1093-1126 | element i of a package initialiser is the value of term i, and no other package or buffer changes |
| `ProgramElements.QuietLeaves` | Crates/fusion-firmware/aml/eval.rs:386-537 | an expression without stores and calls leaves the store as it was |
| `ProgramElements.SizeBoundsIndex` | Crates/fusion-firmware/aml/eval.rs:747-761 | SizeOf is the number of elements: exactly the indices below it can be read |
| `ProgramElements.SizeCountsBytes` | Crates/fusion-firmware/aml/eval.rs:747-761 | and of a value made of bytes, wherever they are kept, the number of its bytes |
| `ProgramElements.SizeCountsConstants` | Crates/fusion-firmware/aml/eval.rs:747-761 | and of a static package of constants their number |
| `Frames.Frame.constructor` | Crates/fusion-firmware/aml/eval.rs:1889-1912 | a new frame holds the arguments and nothing else |
| `Frames.Frame.Bind` | Crates/fusion-firmware/aml/eval.rs:1914-1977 | binding a name updates a map of at most eight names, and fails exactly when it is full and lacks the name |
| `Frames.Frame.BindingOf` | Crates/fusion-firmware/aml/eval.rs:1979-2010 | what a trusted frame binds fits the integer width |
| `Frames.Frame.WriteNamedValue` | Crates/fusion-firmware/aml/eval.rs:2012-2024 | rewrites a name exactly when it holds a value |
| `ProgramBounds.BlockMoreFuel` | Crates/fusion-firmware/aml/eval.rs:356-384 | a body that finishes within some bound on loop turns finishes the same way within any larger one |
| `ProgramBounds.LoopFreeFinishes` | Crates/fusion-firmware/aml/eval.rs:805-894 | programs without While finish however they recurse: a chain of calls ends at the depth limit |
| `Evaluator.SpellKind` | Crates/fusion-firmware/aml/eval.rs:397-536 | the opcode dispatch recognises every spelled expression for what it is |
| `Evaluator.SpellStmtKind` | Crates/fusion-firmware/aml/eval.rs:187-217 | and every spelled statement |
| `Evaluator.ConstantMeans` | Crates/fusion-firmware/aml/eval.rs:399-440 | every constant opcode reads back as the number its bytes spell |
| `Evaluator.PackageFound` | Crates/fusion-firmware/aml/bytecode.rs:128-154 | a package is found where it was put |
| `Evaluator.ElseSkipped` | Crates/fusion-firmware/aml/eval.rs:314-317 | after a branch that was taken, the Else is stepped over exactly |
| `Evaluator.ConstantPackageElement` | Crates/fusion-firmware/aml/eval.rs:1406-1455 | indexing a static package of constants gives the constant at that place, cut to the width |
| `Evaluator.StaticTextPlace` | Crates/fusion-firmware/aml/eval.rs:1161-1266 | a static text is kept as the place of its characters, without prefix and zero |
| `Evaluator.StaticPackagePlace` | Crates/fusion-firmware/aml/eval.rs:1161-1266 | a static package is kept as the place of the whole package, up to its own end |
| `Evaluation.Machine.Evaluate` | Crates/fusion-firmware/aml/eval.rs:101-148 | a run from the top computes the meaning of the compiled body on tables, host bytes and host requests; it is blocked exactly when an Acquire of its own body was refused, and then has no value; a returned integer fits the width; a run that begins no While and no static Buffer is never cut short by the bound, whatever its bytes |
| `Evaluation.Machine.EvalTermList` | Crates/fusion-firmware/aml/eval.rs:150-174 | a statement list computes the meaning of the block it spells |
| `Evaluation.Machine.EvalStatement` | Crates/fusion-firmware/aml/eval.rs:176-218 | a statement computes its meaning, and stops a body only by Break, Return or a refused Acquire |
| `Evaluation.Machine.EvalIf` | Crates/fusion-firmware/aml/eval.rs:287-331 | If and Else choose the branch the condition selects and consume both |
| `Evaluation.Machine.EvalElse` | Crates/fusion-firmware/aml/eval.rs:318-330 | a failed condition runs the Else branch, if there is one |
| `Evaluation.Machine.EvalWhile` | Crates/fusion-firmware/aml/eval.rs:356-384 | While computes the meaning of the loop: Break leaves it, Return and Blocked go through it |
| `Evaluation.Machine.EvalNameStatement` | Crates/fusion-firmware/aml/eval.rs:333-354 | a Name inside a body builds its text, buffer or package and binds the name to it, or fails exactly when eight other names are bound |
| `Evaluation.Machine.BindName` | Crates/fusion-firmware/aml/eval.rs:1914-1977 | a name is bound over its old binding or as one of at most eight |
| `Evaluation.Machine.EvalExtStatement` | Crates/fusion-firmware/aml/eval.rs:220-285 | every extended statement computes its meaning: Acquire, Release, Stall, Sleep, Notify, and regions and fields declared inside a body |
| `Evaluation.Machine.EvalAcquire` | Crates/fusion-firmware/aml/eval.rs:249-261 | an Acquire takes the mutex, or is refused and recorded as the one reason the body blocks |
| `Evaluation.Machine.EvalRelease` | Crates/fusion-firmware/aml/eval.rs:262-268 | a Release gives the mutex back, or is an error |
| `Evaluation.Machine.EvalDelay` | Crates/fusion-firmware/aml/eval.rs:235-248 | Stall and Sleep evaluate their operand and ask the host for its low 32 bits |
| `Evaluation.Machine.EvalNotify` | Crates/fusion-firmware/aml/eval.rs:269-282 | Notify evaluates its value and asks the host to notify the object its name leads to with the low byte |
| `Evaluation.Machine.ObjectFound` | Crates/fusion-firmware/aml/eval.rs:978-1009 | a spelled operand name leads to the record the lookup finds, with exact consumption |
| `Evaluation.Machine.EvalDynamicRegion` | Crates/fusion-firmware/aml/eval.rs:1593-1623 | a region declared inside a body is bound with the address space its byte names and the base and length its operands evaluate to |
| `Evaluation.Machine.EvalDynamicField` | Crates/fusion-firmware/aml/eval.rs:1625-1655 | a Field statement binds its names in the region named, one bound in the body before one of the namespace, at the offsets and widths its list gives them |
| `Evaluation.Machine.BindFields` | Crates/fusion-firmware/aml/eval.rs:1680-1739 | the entry loop binds exactly the named entries of the list, each at the sum of the skips and widths before it, saturated at 32 bits |
| `Evaluation.Machine.EvalTermArg` | Crates/fusion-firmware/aml/eval.rs:386-537 | a term computes the value and the store its expression means; its integer fits the width and no Acquire was refused on the way |
| `Evaluation.Machine.EvalOperator` | Crates/fusion-firmware/aml/eval.rs:463-536 | so does every operator term |
| `Evaluation.Machine.EvalStore` | Crates/fusion-firmware/aml/eval.rs:463-475 | Store evaluates once, assigns, and is worth the value |
| `Evaluation.Machine.EvalBinaryOp` | Crates/fusion-firmware/aml/eval.rs:636-662 | left before right, then the operator, then the target |
| `Evaluation.Machine.CombineInto` | Crates/fusion-firmware/aml/eval.rs:652-661 | the result stored is the operator's exact result modulo the width |
| `Evaluation.Machine.EvalDivide` | Crates/fusion-firmware/aml/eval.rs:689-730 | left before right, then division |
| `Evaluation.Machine.DivideInto` | Crates/fusion-firmware/aml/eval.rs:703-729 | the remainder goes to the first target and the quotient to the second; a zero divisor is an error |
| `Evaluation.Machine.EvalUpdateOp` | Crates/fusion-firmware/aml/eval.rs:539-562 | Increment and Decrement change their target by one modulo the width |
| `Evaluation.Machine.EvalInvert` | Crates/fusion-firmware/aml/eval.rs:507-514 | Not is -1 - x modulo the width |
| `Evaluation.Machine.EvalNot` | Crates/fusion-firmware/aml/eval.rs:519-526 | LNot is one exactly for a false value |
| `Evaluation.Machine.EvalLogicCompare` | Crates/fusion-firmware/aml/eval.rs:664-687 | a comparison is one exactly when it holds |
| `Evaluation.Machine.EvalDeref` | Crates/fusion-firmware/aml/eval.rs:732-745 | DerefOf is worth its operand |
| `Evaluation.Machine.EvalSizeOf` | Crates/fusion-firmware/aml/eval.rs:747-761 | SizeOf is the length of the value wherever it is kept |
| `Evaluation.Machine.EvalObjectType` | Crates/fusion-firmware/aml/eval.rs:763-777 | ObjectType is the type number of the value |
| `Evaluation.Machine.EvalIndex` | Crates/fusion-firmware/aml/eval.rs:779-803 | the package or buffer, then the index, then the element, then its target: Index computes the meaning of the expression it spells |
| `Evaluation.Machine.IndexInto` | Crates/fusion-firmware/aml/eval.rs:793-802 | the element stored and returned is the one at that index |
| `Evaluation.Machine.EvalNamedTerm` | Crates/fusion-firmware/aml/eval.rs:564-634 | a name is what it is bound to in the body, else an integer's or a field's current value or a call, as the lookup from the body's scope finds it |
| `Evaluation.Machine.ReadBound` | Crates/fusion-firmware/aml/eval.rs:576-587 | a name bound in the body to a value is that value, to a field the number its bits spell; a region or an unbound name is looked for in the namespace |
| `Evaluation.Machine.EvalRecordNamed` | Crates/fusion-firmware/aml/eval.rs:589-634 | an unbound name is a call or an object's current value, as the lookup from the body's scope finds it |
| `Evaluation.Machine.EvalObject` | Crates/fusion-firmware/aml/eval.rs:596-620 | an integer reads as last written, else as declared; a field reads as the number its bits spell on the host, cut to the width; failures included |
| `Evaluation.Machine.InvokeMethodFromTerm` | Crates/fusion-firmware/aml/eval.rs:805-852 | arguments are evaluated in order, the depth limit is checked first, and the call computes the callee's meaning on the same tables and host |
| `Evaluation.Machine.EvalArguments` | Crates/fusion-firmware/aml/eval.rs:821-841 | as many arguments as the method declares, left to right |
| `Evaluation.Machine.InvokeMethodDescriptor` | Crates/fusion-firmware/aml/eval.rs:854-894 | a called body runs one level deeper in registers of its own; a body that blocks is an error, and so is one that breaks |
| `Evaluation.Machine.AssignTarget` | Crates/fusion-firmware/aml/eval.rs:896-945 | the value goes where the target says, and nowhere else |
| `Evaluation.Machine.AssignRegister` | Crates/fusion-firmware/aml/eval.rs:911-919 | a register target changes that one local or argument |
| `Evaluation.Machine.AssignNamed` | Crates/fusion-firmware/aml/eval.rs:920-942 | a name bound in the body takes the value there; else a named integer is written to the tables and a named field to its bits on the host |
| `Evaluation.Machine.AssignObject` | Crates/fusion-firmware/aml/eval.rs:937-941 | an unbound name leads to the object that takes the value, or the exact error |
| `Evaluation.Machine.AssignLocal` | Crates/fusion-firmware/aml/eval.rs:922-936 | a name bound to a field rewrites its bits, one bound to a buffer has the value's bytes copied into it, one bound to another value is replaced, and an unbound one leaves everything alone |
| `Evaluation.Machine.WriteNamedTarget` | Crates/fusion-firmware/aml/eval.rs:1011-1033 | an integer object is written through the bounded map and a field rewrites exactly its bits on the host, or the exact error is returned |
| `Evaluation.Machine.AssignIndexTarget` | Crates/fusion-firmware/aml/eval.rs:1035-1071 | an indexed target evaluates its package or buffer and its index, and replaces exactly that element |
| `Evaluation.Machine.StoreIndexed` | Crates/fusion-firmware/aml/eval.rs:1052-1070 | what the indexed target's own target names takes nothing, and then the element is replaced |
| `Evaluation.Machine.StoreElement` | Crates/fusion-firmware/aml/eval.rs:1060-1069 | the element of the tables that is written, or the exact error |
| `Evaluation.Machine.ReadTargetValue` | Crates/fusion-firmware/aml/eval.rs:947-976 | the value a target holds before an update |
| `Evaluation.Machine.EvalNameInitializer` | Crates/fusion-firmware/aml/eval.rs:1073-1091 | an initialiser computes the object its declaration means |
| `Evaluation.Machine.EvalPackageInitializer` | Crates/fusion-firmware/aml/eval.rs:1093-1126 | a package is made and its terms are evaluated and stored in order, as its declaration means |
| `Evaluation.Machine.FillPackage` | Crates/fusion-firmware/aml/eval.rs:1113-1124 | the loop stores term after term until the package is full or the terms run out |
| `Evaluation.Machine.EvalBufferInitializer` | Crates/fusion-firmware/aml/eval.rs:1128-1159 | a buffer is made with the length its operand evaluates to and holds what follows in the package, cut or zero-padded, as its declaration means |
| `Evaluation.Machine.MakeBuffer` | Crates/fusion-firmware/aml/eval.rs:1151-1158 | a new buffer holds the bytes given, cut or zero-padded to its length |
| `Evaluation.Machine.EvalStaticNameValue` | Crates/fusion-firmware/aml/eval.rs:1161-1266 | a static constant, text or package is what its code says and changes nothing; a static Buffer is a front part of what follows its size, and is the one form the bound can cut short |
| `Evaluation.Machine.IndexValue` | Crates/fusion-firmware/aml/eval.rs:1357-1404 | the element at that index of a buffer or runtime package, read without any effect, and of a static package without Buffers; an index past 255 overflows |
| `Evaluation.Machine.StaticPackageElement` | Crates/fusion-firmware/aml/eval.rs:1406-1455 | the element walk finds the element asked for when no Buffer precedes it |
| `Evaluation.Machine.CopyValueIntoBuffer` | Crates/fusion-firmware/aml/eval.rs:1281-1313 | the buffer holds the bytes of the text, static text or buffer, cut or zero-padded, or the exact error is returned; a buffer copied onto itself stays as it is |
| `Evaluation.Machine.ReadWholeBuffer` | Crates/fusion-firmware/aml/eval.rs:1297-1308 | the read loop collects exactly the buffer's readable bytes |
| `Vm.FollowMakesThePlan` | Crates/fusion-firmware/aml/vm.rs:133-189 | a pass that finishes made exactly its planned calls; one that stops made some of them and only its last call blocked |
| `Vm.RegistersEachSpaceOnce` | Crates/fusion-firmware/aml/vm.rs:142-183 | a _REG is called once for each address space among its sibling regions, in first-seen order, and fails before the seventeenth |
| `Vm.SpacesInFirstSeenOrder` | Crates/fusion-firmware/aml/vm.rs:146-160 | the spaces collected are distinct, complete and in the order of their first occurrence |
| `Vm.AmlVm.RegisterRegions` | Crates/fusion-firmware/aml/vm.rs:111-190 | registration follows its plan, reports the calls made and the _REG methods without regions, and is Blocked exactly when cut short |
| `Vm.AmlVm.RegisterOne` | Crates/fusion-firmware/aml/vm.rs:142-183 | the sibling loop makes the calls planned for one _REG |
| `Vm.InitVisitsEveryDevice` | Crates/fusion-firmware/aml/vm.rs:192-256 | a finished initialisation visited every _INI once in record order and ran exactly those without a sibling _STA or whose first _STA has bits 0 and 3 |
| `Vm.EveryInitializerCounted` | Crates/fusion-firmware/aml/vm.rs:221-249 | every _INI is counted once, as invoked or as skipped |
| `Vm.AmlVm.InitializeDevices` | Crates/fusion-firmware/aml/vm.rs:192-256 | the loop makes exactly that pass; its counts are the invoked and the skipped devices, and it is Blocked exactly when cut short |
| `Vm.AmlVm.VisitDevice` | Crates/fusion-firmware/aml/vm.rs:208-249 | one device: its _INI runs unless its status says otherwise, and the pass stops where a call blocked |
| `Vm.AmlVm.ShouldRunInitializer` | Crates/fusion-firmware/aml/vm.rs:297-343 | the decision and the call made for it are those of the first sibling _STA |
| `Vm.HandlesIffNamed` | Crates/fusion-firmware/aml/loader.rs:1002-1018 | the methods a dispatch finds are exactly those whose last segment is the one the lowering layer spells |
| `Vm.DispatchCallsNamed` | Crates/fusion-firmware/aml/lowering.rs:109-126 | so a dispatch calls exactly the methods so named, in record order |
| `Vm.PlanEmptyIffMissing` | Crates/fusion-firmware/aml/vm.rs:391-396 | nothing is called exactly when no method handles the code |
| `Vm.AmlVm.DispatchHandler` | Crates/fusion-firmware/aml/vm.rs:345-399 | the loop follows that plan, and reports missing exactly when the plan is empty |
| `Vm.KindsByName` | Crates/fusion-firmware/aml/loader.rs:1002-1018 | in a loaded namespace the initialisers, status methods and region notifications are the methods named _INI, _STA and _REG |
| `Vm.SpaceRoundTrip` | Crates/fusion-firmware/aml/vm.rs:402-420 | the argument a _REG gets for a space is the byte that declared it |
| `Vm.SpaceArgumentInverse` | Crates/fusion-firmware/aml/vm.rs:402-420 | and leads back to the space, for every space a block can declare |
| `DispatchBroker.AlwaysInv` | Crates/fusion-pal/sys/runtime_dispatch.rs:48-165 | the invariant over slots, threads and pending marks holds in every interleaving |
| `DispatchBroker.BatchesExclude` | Crates/fusion-pal/sys/runtime_dispatch.rs:121-165 | at most one thread is inside a batch, and RUNNING says whether one is |
| `DispatchBroker.CallsWithinRequests` | Crates/fusion-pal/sys/runtime_dispatch.rs:99-165 | a slot is never called more often than it was requested |
| `DispatchBroker.CallsSeeTheirBinding` | Crates/fusion-pal/sys/runtime_dispatch.rs:48-165 | a call gets its slot's registered function with the registered context or zero, and exactly that context when nobody unregisters and only returned cookies are used |
| `DispatchBroker.PendingAtTheEnd` | Crates/fusion-pal/sys/runtime_dispatch.rs:147-165 | a slot still pending when RUNNING is about to drop was marked again after that batch took its mark |
| `DispatchBroker.RegistrationNeverConflicts` | Crates/fusion-pal/sys/runtime_dispatch.rs:61-67 | the exchange that binds a slot never finds it taken |
| `DispatchBroker.UnansweredIffLost` | Crates/fusion-pal/sys/runtime_dispatch.rs:77-165 | in every run that has come to rest, some mark of a slot was never followed by a call if and only if some move lost the mark for good: a request read RUNNING as set after the batch had passed the slot, a batch took the mark and found no callback, or an unregister erased it; only the first if nobody unregistered the slot |
| `DispatchBroker.QuietUnansweredIffLost` | Crates/fusion-pal/sys/runtime_dispatch.rs:99-198 | the same for the slot's recorded history |
| `DispatchBroker.UnansweredEvents` | Crates/fusion-pal/sys/runtime_dispatch.rs:99-165 | a slot counts as unanswered exactly when some move marks it and no call follows |
| `DispatchBroker.StrandedRequestExists` | Crates/fusion-pal/sys/runtime_dispatch.rs:99-165 | a concrete interleaving in which a request that returned Ok is never answered |
| `DispatchBroker.DroppedRequestExists` | Crates/fusion-pal/sys/runtime_dispatch.rs:77-165 | a concrete interleaving in which a request that returned Ok is dropped, because its callback was unregistered between its check and its mark |
| `DispatchBroker.CounterCounts` | Crates/fusion-pal/sys/runtime_dispatch.rs:52-55 | the cookie counter stands one past the number of draws |
| `DispatchBroker.RegistersInOrder` | Crates/fusion-pal/sys/runtime_dispatch.rs:52-59 | the first thirty-two registers get the cookies 1 to 32 in order, and all later ones fail |
| `DispatchBroker.BoundUnderItsCookie` | Crates/fusion-pal/sys/runtime_dispatch.rs:48-70 | what is bound to a slot was registered under the slot's own cookie |
| `DispatchBroker.MarkedByItsCookie` | Crates/fusion-pal/sys/runtime_dispatch.rs:99-117 | a slot that was ever marked was marked by a request of its own cookie |
| `DispatchBroker.CallAnswersItsCookie` | Crates/fusion-pal/sys/runtime_dispatch.rs:48-165 | every call a batch makes is of the function registered under some cookie, after that very cookie was requested and the request accepted, and with the context registered under it unless such a cookie was unregistered or used early |
| `DispatchBroker.RequestChecksCookie` | Crates/fusion-pal/sys/runtime_dispatch.rs:99-105 | a request gets past its check exactly for the cookies 1 to 32 |
| `DispatchBroker.UnregisterChecksCookie` | Crates/fusion-pal/sys/runtime_dispatch.rs:77-81 | an unregister turns to its own cookie's slot, exactly for those cookies |
| `DispatchBroker.RequestAcceptedIffBound` | Crates/fusion-pal/sys/runtime_dispatch.rs:99-107 | a request is accepted exactly when its cookie is bound: registered, and not unregistered since |
| `OnceInit.AlwaysInv` | Crates/fusion-pal/sys/vector_runtime.rs:48-138 | the invariant over phase, lock, cell, bodies and threads holds in every interleaving, of the broker and of the cache |
| `OnceInit.RunningIffOneBootstraps` | Crates/fusion-pal/sys/vector_runtime.rs:48-93 | RUNNING holds exactly while some thread bootstraps, and then only one does |
| `OnceInit.CacheReadsTheOneWrite` | Crates/fusion-firmware/module/module.rs:70-128 | READY means the registry was written exactly once, and every reader ever reads that value |
| `OnceInit.FinalPhases` | Crates/fusion-pal/sys/vector_runtime.rs:52-80 | READY and SKIPPED are final, no bootstrap writes the cell again, and the cache's cell is never changed at all |
| `OnceInit.FailureAllowsAnother` | Crates/fusion-pal/sys/vector_runtime.rs:83-88 | a failed bootstrap puts the phase back with the cell untouched |
| `OnceInit.OnlyHolderChanges` | Crates/fusion-pal/sys/vector_runtime.rs:97-138 | once READY, only a body whose thread holds the lock changes the builder |
| `OnceInit.BodiesExclude` | Crates/fusion-pal/sys/vector_runtime.rs:97-138 | bodies under the lock never overlap, and through all its steps a body finds what it last left itself |
| `OnceInit.BodiesAreSerial` | Crates/fusion-pal/sys/vector_runtime.rs:97-113 | the bodies are a serial history: the first finds what the one bootstrap wrote, each later one what the body before it left |
| `OnceInit.FallbackUnreachable` | Crates/fusion-pal/sys/vector_runtime.rs:103-113 | the arms after the lock for another phase are never taken, and an unwritten cell is never read |
| `OnceInit.BuiltIsPublished` | Crates/fusion-pal/sys/vector_runtime.rs:52-80 | a bootstrap that built something publishes exactly that, whatever other threads do between its steps, and its caller goes on to use it |
| `OnceInit.NothingIsSkipped` | Crates/fusion-pal/sys/vector_runtime.rs:70-93 | one that has nothing to build leaves the broker SKIPPED and the cache to be tried again; one that breaks leaves both to be tried again |
| `OnceInit.CallerBegins` | Crates/fusion-pal/sys/vector_runtime.rs:48-70 | a caller that finds nothing begun bootstraps; one that finds SKIPPED, or READY with nothing to use, is done |
| `OnceInit.ReaderServed` | Crates/fusion-firmware/module/module.rs:70-128 | a caller that finds the registry READY reads what is in the cell |
| `OnceInit.BuilderServed` | Crates/fusion-pal/sys/vector_runtime.rs:97-138 | a caller that finds the builder READY and the lock free runs its body on what is in the cell |
| `CallGraph.Scan` | Crates/fusion-std/bin/fiber_task_pipeline.rs:1158-1219 | the one-pass scan builds exactly the graph of the listing's calls, callees in order of first occurrence |
| `CallGraph.EdgeIffSomeCall` | Crates/fusion-std/bin/fiber_task_pipeline.rs:1158-1219 | (f, t) is an edge if and only if some call in f's section has t as its following relocation, or as its inline target when none follows |
| `CallGraph.GraphHasTheEdges` | Crates/fusion-std/bin/fiber_task_pipeline.rs:1221-1226 | the graph has exactly the recorded edges, each callee once, and no empty entry |
| `CallGraph.NoEdgeBeforeAHeader` | Crates/fusion-std/bin/fiber_task_pipeline.rs:1228-1236 | no edge comes from above the first header |
| `CallGraph.Flush` | Crates/fusion-std/bin/fiber_task_pipeline.rs:1221-1236 | an edge is recorded once both its ends are known, and only then |
| `Pcu.ContainsIffBits` | Crates/fusion-pcu/model/dispatch.rs:63-65 | a mask contains another exactly when it has all of its bits |
| `Pcu.RequiredInstructions` | Crates/fusion-pcu/model/dispatch.rs:160-166 | the loop computes the union of the instruction flags |
| `Pcu.AdmitsIffEveryOp` | Crates/fusion-pcu/model/dispatch.rs:160-166 | an instruction mask admits a kernel exactly when it admits each instruction |
| `Pcu.DerivedFeatures` | Crates/fusion-pcu/model/dispatch.rs:180-207 | the loop computes the features the signature asks for |
| `Pcu.AdmitsFeatures` | Crates/fusion-pcu/model/dispatch.rs:176-207 | a feature mask admits a kernel exactly when it admits its floor, inline parameters if any, and each binding |
| `Pcu.VerdictIsFurthest` | Crates/fusion-pcu/dispatch.rs:357-391 | the verdict is the furthest stage any single executor reaches |
| `Pcu.MoreExecutorsNoWorse` | Crates/fusion-pcu/dispatch.rs:357-391 | more executors never make the verdict worse |
| `Pcu.AdmittedIffTaken` | Crates/fusion-pcu/dispatch.rs:357-391 | a kernel is admitted exactly when one executor has, bit by bit, dispatch, ordered submission, every bit of every instruction, type and stated feature, and the features its signature asks for; and rejected outright exactly when none has the structure |
| `Pcu.ValidIffBijection` | Crates/fusion-pcu/contract/invocation.rs:82-114 | parameters validate exactly when slots are distinct and the values are a type-correct bijection onto the declared ones |
| `Pcu.BijectionCounts` | Crates/fusion-pcu/contract/invocation.rs:82-114 | and then there are as many values as parameters |
| `Pcu.ValidateShape` | Crates/fusion-pcu/dispatch.rs:431-449 | a shape is accepted exactly when the unbounded product of its axes is the thread count |
| `Fdxe.InventoryStaticModules` | Crates/fusion-hal/fdxe/shared.rs:375-388 | the inventory succeeds exactly when every record is sound, and counts its modules and drivers |
| `Fdxe.Registry.RegisterModule` | Crates/fusion-hal/fdxe/shared.rs:432-463 | registers under exactly the stated condition; otherwise nothing changes; drivers stay the in-order exports of distinct modules |
| `Fdxe.Registry.RegisterStaticModules` | Crates/fusion-hal/fdxe/shared.rs:471-481 | on a fresh registry whose storage covers the inventory, any list of distinct sound modules registers completely |
| `KernelWire.EncodeInto` | Crates/fusion-kn/contract/wire.rs:198-217 | writes the header's bytes into the buffer and touches nothing beyond them |
| `KernelWire.DecodeInvertsEncode` | Crates/fusion-kn/contract/wire.rs:198-262 | a header with valid flags decodes to itself, whatever follows |
| `KernelWire.ReencodeKeepsBytes` | Crates/fusion-kn/contract/wire.rs:198-262 | re-encoding an accepted header changes only the two reserved bytes, which become zero |
| `KernelWire.Client.Negotiate` | Crates/fusion-kn/client/client.rs:113-179 | one request is made, as the kernel side reads it; there is a session exactly when the reply is a whole, successful response to it that selects our version and transport, with exactly what it said, and otherwise the error says what was wrong first |
| `KernelWire.OfferRoundTrip` | Crates/fusion-kn/contract/wire.rs:308-345 | every request payload decodes to itself, whatever follows it |
| `KernelWire.AnswerRoundTrip` | Crates/fusion-kn/contract/wire.rs:373-406 | so does every answer payload |
| `KernelWire.HonestReplyAnswers` | Crates/fusion-kn/client/client.rs:135-179 | a peer that answers in our major version, whatever the minor version, is accepted with exactly what it said |
| `KernelWire.Client.AllocateRequestId` | Crates/fusion-kn/client/client.rs:181-185 | hands out the next id and wraps past the largest to one |
| `KernelWire.IdsDistinct` | Crates/fusion-kn/client/client.rs:181-185 | ids are never zero, and any 2^32 - 1 consecutive ones are distinct |

## Left out

- LoaderTerms.DataObject: states that it takes at least one byte; its package length may pass the end.
- Evaluation.Machine.IndexValue: the meaning of an element of a static package is stated only while no Buffer has to be evaluated on the way; a program that uses Index is therefore given no static packages as arguments.
- ProgramElements.ReadAfterStore: the operands of both Index terms are constants or registers; an operand that itself reads the element stored could change with it.
- Static Names other than integers and fields are outside the program syntax and are covered by `EvalStaticNameValue`; so are names bound inside a body that would hide a method, which the evaluator would then not call.
- `Compilation` has one block, and opens a Scope only to declare it; further blocks and reopened scopes are covered by the invariants of the load.
- Evaluation.Machine.StaticPackageElement: says nothing of the value once a Buffer element has to be evaluated on the way.
- The namespace passed to the evaluator is any list of records and blocks; definition blocks are taken to be shorter than 4 GiB, so code offsets do not wrap.
- The runtime tables start from empty slots or from any sound state; tables filled by hand with two slots for one node are not modelled.
- The execution phase argument of the evaluator, which has no effect on evaluation.
- UTF-8 validity of string constants and the host's answers to Stall, Sleep and Notify are parameters.
- The VM passes see the evaluator as an arbitrary oracle over the calls made so far.
- Atomic operations are sequentially consistent; memory orderings, raw addresses and uninitialised memory are not modelled.
- The dispatch broker's cookie counter does not wrap, and a callback that calls the broker is another thread's move.
- Thread scheduling fairness and the termination of spin loops.
- The text of objdump lines: each line is taken for what its classifier makes of it.
- Stream, signal, command and transaction kernels of the PCU, its invocation bindings and its kernel builder: one-branch facts.
- FDXE header layout checks, driver placement and vtables; a module's own validation is one value.
- ACPI table checksums and headers, text path parsing, lowering targets, build scripts, command lines and benchmarks.
