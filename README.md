# Checked C dynamic statistics, modelled in Dafny

This project models three pieces of the Checked C analysis tooling.

- **The runtime heap-range registry** (`analysis_lib/analysis.cpp`). It is an
  ordered map `heap_objs` from the start of each live heap object to its
  exclusive end. It also keeps the list `array_sizes` of pointer-array sizes
  found so far, and the size `largest_obj` of the largest object ever
  recorded. The library defines `_record_obj_range` (for an allocation),
  `_remove_obj_range` (for a `free`), `_find_array_size` (for a pointer array
  handed to a library) and `_dump_summary` (the two maxima, at exit). Only
  its test program `analysis_lib/tests/hello.c` calls them directly. The
  pass emits calls to `_record_alloc`, `_record_realloc` and
  `_cal_array_size` instead (CheckedCDynStats.cpp:31-33), names the library
  does not define, and the library has no hook for `realloc`.
- **The instrumentation pass** (`CheckedCDynStats.cpp`), over an abstract IR.
  A module is a list of functions. Each function has a has-body flag and
  blocks of instructions. A call carries its id, its directly known callee
  (name, declaration flag, intrinsic flag) and typed arguments (pointer to
  pointer, or other). The pass runs in three phases:
  - it collects the malloc-family, `free` and pointer-array call sites;
  - it inserts the runtime hooks after each site;
  - it registers `atexit(_dump_summary)` in `main`.
- **The largest-struct fold** (`CheckedCGetObjSize.cpp`). It takes the
  maximum alloc size over the sized identified struct types of a module.

Modules:

- `Common` (common.dfy): `Option` and the running maximum `SeqMax` that both
  accumulator loops compute. It also holds small sequence identities.
- `OrderedKeys` (ordered_keys.dfy): `lower_bound`, the iterator step back and
  the floor lookup over the key set of an ordered map. Each has a
  specification function, and `LowerBound` and `Prev` are methods proved
  against them.
- `HeapRegistry` (heap_registry.dfy):
  - the class `Registry`, with the runtime's three globals as fields;
  - `Resolve`, the intended lookup;
  - `RawFindArraySize`, the lookup as written;
  - the test driver's scenario.
- `DynStatsIR` (dyn_stats_ir.dfy): the IR, the classification `Classify`, the
  size-operand choice and `Suffix`. `Suffix` gives what the pass inserts
  after one instruction, and `Planned` gives a block once every site in it
  is instrumented.
- `DynStatsPlan` (dyn_stats_plan.dfy): well-formed modules. It gives a
  module with some of its sites instrumented (`ExpandModule`), a module
  with all of them instrumented (`PlannedModule`) and the final module
  (`InstrumentedModule`), with the lemmas that connect them.
- `DynStatsPass` (dyn_stats_pass.dfy): the class `IRModule`, whose methods
  are the pass's loops:
  - `CollectSites` is the scan, proved to collect exactly the sites, each
    once.
  - The handler methods and their loops are proved to step through the
    stages from the original module to `PlannedModule`.
  - `Instrument` is proved to produce `InstrumentedModule` and to report a
    change exactly when the module has a site.
- `ObjSize` (obj_size.dfy): `FindLargestStruct`, proved against `SeqMax` of
  the narrowed sizes of the sized structs.

The following conventions apply throughout:

- Addresses and sizes are naturals. The registry's `uint64_t` arithmetic is
  written out as `Add64`/`Sub64` modulo 2^64.
- The `unsigned` accumulator of the struct fold is narrowed modulo 2^32.
- A call's identity, the `CallBase*` the source keeps in its lists, is a call
  id that is unique in the module. A handler finds its call by that id.
- The input program's own multiplies and casts are `Plain` instructions.
  `Mul`, `BitCast` and `HookCall` stand only for code the pass inserts, so a
  well-formed input block (`WellFormedBlock`) contains none of them.
- A value is an integer constant (`Const`), another operand of the input
  program, a call's result or something the pass computed. When both
  factors of a size product are integer constants, `IRBuilder::CreateMul`
  folds them into their 64-bit product and inserts no multiply (`Folds`,
  `SizeValue`).
- A well-formed module (`WellFormed`) also ties each call's callee flags to
  the module: a call to a function the module has sees it as a declaration
  exactly when that function has no body (`CalleesAgree`).
- The sequence identities in `Common` (`AppendAssoc` through `InsertIndex`)
  are proof helpers about sequences, not statements about the source, and
  have no row below.

## Model

| member | source | states |
|---|---|---|
| Common.SeqMax | analysis_lib/analysis.cpp:102-105 | the accumulator's result is at least every element; it is 0 for no elements and otherwise one of them |
| Common.SeqMaxSnoc | analysis_lib/analysis.cpp:104 | one more loop step keeps the larger of the accumulator and the new element |
| Common.SeqMaxSameElements | llvm/lib/Analysis/CheckedCGetObjSize.cpp:33-38 | the maximum depends only on which values occur, not on their order or repetition |
| Common.SeqMaxPermutation | analysis_lib/analysis.cpp:102-105 | reordering `array_sizes` does not change the reported maximum |
| OrderedKeys.LowerBoundOf | analysis_lib/analysis.cpp:68 | `lower_bound`: the least key not below the address; none exactly when every key is below it |
| OrderedKeys.PredecessorOf | analysis_lib/analysis.cpp:77 | stepping back from a position: the greatest key strictly below the bound; none exactly when no key is below it |
| OrderedKeys.FloorOf | analysis_lib/analysis.cpp:61-95 | the greatest key at or below the address, the start the lookup is meant to find; none exactly when every key is above it |
| OrderedKeys.LowerBound | analysis_lib/analysis.cpp:68 | one scan of the keys returns exactly the `lower_bound` |
| OrderedKeys.Prev | analysis_lib/analysis.cpp:77-78 | one scan of the keys returns exactly the predecessor of the bound |
| OrderedKeys.FloorViaLowerBound | analysis_lib/analysis.cpp:68-89 | an exact `lower_bound` hit is the floor; otherwise the key before the lower bound (or before the end, when there is none) is the floor |
| HeapRegistry.Add64 | analysis_lib/analysis.cpp:41 | `start + size` is below 2^64 and equals the true sum when that sum fits |
| HeapRegistry.Sub64 | analysis_lib/analysis.cpp:72 | `second - addr` is below 2^64 and equals the true difference when it is not negative |
| HeapRegistry.ResolveAtStart | analysis_lib/analysis.cpp:68-72 | a lookup at a recorded start reports `end - start` (64-bit), which is the object's size when its range does not wrap |
| HeapRegistry.RecordThenResolve | analysis_lib/analysis.cpp:41 | after recording `[s, s + n)`, a lookup at `s` reports `n`, whatever was there before and even if `s + n` wraps |
| HeapRegistry.ResolveInterior | analysis_lib/analysis.cpp:76-79 | a pointer strictly inside the object with the greatest start below it gets `end - p`, which lies in `(0, end - start]` |
| HeapRegistry.ResolveMiss | analysis_lib/analysis.cpp:77-78 | with no start at or below `p`, or a nearest object that ends at or before `p`, the lookup is a miss |
| HeapRegistry.ResolveViaLowerBound | analysis_lib/analysis.cpp:68-89 | the intended lookup, stated in the branches the source computes it in: exact hit, one step back from the lower bound, or one step back from the end, each with its range check |
| HeapRegistry.ResolveBounded | analysis_lib/analysis.cpp:72-79 | a hit never reports 2^64 or more |
| HeapRegistry.ResolveIffLive | analysis_lib/analysis.cpp:61-95 | with disjoint, non-wrapping ranges, a size is found exactly when `p` is a live start or lies in a live `[start, end)`, and then it is `end - p` |
| HeapRegistry.RawDepartsOnlyOnMisses | analysis_lib/analysis.cpp:61-95 | the code as written agrees with the intended lookup on every hit; on a miss it either runs into undefined behaviour or appends a size although every start lies below `p` and `p` is past the object's end |
| HeapRegistry.RawStepsBeforeBegin | analysis_lib/analysis.cpp:77 | the test driver's last lookup steps back from `begin()`, although the intended lookup is a miss |
| HeapRegistry.RawStepsBackInEmptyMap | analysis_lib/analysis.cpp:88 | any lookup in an empty registry steps back from `end()`, although the intended lookup is a miss |
| HeapRegistry.RawFabricatesSize | analysis_lib/analysis.cpp:89 | a pointer past the last object's end gets the wrapped size 2^64 - 0x16a0, although the intended lookup is a miss |
| HeapRegistry.Registry.constructor | analysis_lib/analysis.cpp:21-28 | the program starts with an empty map, no array sizes and `largest_obj = 0` |
| HeapRegistry.Registry.RecordObjRange | analysis_lib/analysis.cpp:37-43 | maps `start` to `start + size` (64-bit), overwriting an earlier entry and leaving other keys alone; `largest_obj` becomes the maximum of every recorded size, so it never decreases; `array_sizes` is unchanged |
| HeapRegistry.Registry.RemoveObjRange | analysis_lib/analysis.cpp:51-53 | erases only key `p`; it is a no-op when `p` is absent, so a second call changes nothing; only the map is touched |
| HeapRegistry.Registry.FindArraySize | analysis_lib/analysis.cpp:61-95 | appends exactly what the intended lookup finds: one size on a hit, nothing on a miss; the map and `largest_obj` are untouched |
| HeapRegistry.Registry.DumpSummary | analysis_lib/analysis.cpp:101-105 | reports `largest_obj`, and `largest_arr` as the maximum of `array_sizes` (0 when it is empty) |
| HeapRegistry.HelloAllocations | analysis_lib/tests/hello.c:9-12 | recording the driver's two arrays yields ranges `[0x1000, 0x1960)` and `[0x2000, 0x2fa0)` and `largest_obj = 4000` |
| HeapRegistry.HelloLookups | analysis_lib/tests/hello.c:14-17 | the driver's lookups at a start and at three interior pointers resolve to 2400, 1600, 800 and 1600 |
| HeapRegistry.HelloLiveLookups | analysis_lib/tests/hello.c:14-17 | the four lookups append exactly 2400, 1600, 800, 1600 |
| HeapRegistry.HelloLookupAfterFree | analysis_lib/tests/hello.c:19-21 | once the first array is removed, a lookup inside it is a miss |
| HeapRegistry.HelloScenario | analysis_lib/tests/hello.c:8-24 | the whole driver ends with `array_sizes = [2400, 1600, 800, 1600]` and `largest_obj = 4000` |
| DynStatsIR.FamilyOf | llvm/lib/Transforms/Instrumentation/CheckedCDynStats.cpp:39-41 | each name of the malloc family is its own member: malloc, calloc, realloc or reallocarray |
| DynStatsIR.PtrArgs | llvm/lib/Transforms/Instrumentation/CheckedCDynStats.cpp:175-182 | the argument scan yields nothing exactly when no argument is a pointer to a pointer |
| DynStatsIR.PtrArgsMembers | llvm/lib/Transforms/Instrumentation/CheckedCDynStats.cpp:175-182 | a value is collected iff some argument carrying it is a pointer to a pointer |
| DynStatsIR.PtrArgsInOrder | llvm/lib/Transforms/Instrumentation/CheckedCDynStats.cpp:175-182 | the qualifying arguments are collected in argument order: argument `k` comes right after those qualifying before it |
| DynStatsIR.Classify | llvm/lib/Transforms/Instrumentation/CheckedCDynStats.cpp:160-183 | only direct calls to external non-intrinsic functions are sites; the malloc family gives an allocation site, then `free` a free site, then a whitelisted name nothing, and otherwise a pointer-array site iff some argument is a pointer to a pointer, with exactly those arguments |
| DynStatsIR.SizeOperandIsRequest | llvm/lib/Transforms/Instrumentation/CheckedCDynStats.cpp:112-121 | when the product fits in 64 bits, the size given to the hook (arg0, arg0*arg1, arg1 or arg1*arg2) is the number of bytes the call asks the allocator for |
| DynStatsIR.SizeValueMeansSizeNumber | llvm/lib/Transforms/Instrumentation/CheckedCDynStats.cpp:110-121 | the value the hook gets, whether a folded constant or the multiply's result, stands for the 64-bit size `SizeNumber` computes |
| DynStatsIR.AllocHooks | llvm/lib/Transforms/Instrumentation/CheckedCDynStats.cpp:108-123 | a multiply comes first exactly for calloc and reallocarray whose two factors are not both constants; two constants are folded into their 64-bit product; the hook is `_record_alloc(result, size)` for malloc and calloc and `_record_realloc(arg0, result, size)` for the others |
| DynStatsIR.CastHooksSnoc | llvm/lib/Transforms/Instrumentation/CheckedCDynStats.cpp:206-209 | each further pointer array puts its bitcast and `_cal_array_size` pair in front of the pairs already inserted |
| DynStatsIR.CastHooksReversed | llvm/lib/Transforms/Instrumentation/CheckedCDynStats.cpp:204-211 | two instructions per pointer array; pair `k` is the bitcast of the `k`-th array from the end, immediately followed by `_cal_array_size` of it |
| DynStatsIR.Suffix | llvm/lib/Transforms/Instrumentation/CheckedCDynStats.cpp:190-211 | something is inserted after an instruction exactly when it is a site |
| DynStatsIR.SuffixInserted | llvm/lib/Transforms/Instrumentation/CheckedCDynStats.cpp:190-211 | everything inserted is a multiply, a bitcast or a hook call, never an original instruction |
| DynStatsIR.CastHooksInserted | llvm/lib/Transforms/Instrumentation/CheckedCDynStats.cpp:206-209 | a call passing pointer arrays gets at least one pair, and every inserted instruction is pass-made |
| DynStatsIR.Planned | llvm/lib/Transforms/Instrumentation/CheckedCDynStats.cpp:190-211 | a fully instrumented block is at least as long as the original |
| DynStatsIR.PlannedCons | llvm/lib/Transforms/Instrumentation/CheckedCDynStats.cpp:190-211 | the first instruction is immediately followed by its inserted suffix |
| DynStatsIR.PlannedStep | llvm/lib/Transforms/Instrumentation/CheckedCDynStats.cpp:190-211 | from instruction `k` on, the block is `k`, its suffix, then the rest instrumented |
| DynStatsIR.PlannedAppend | llvm/lib/Transforms/Instrumentation/CheckedCDynStats.cpp:190-211 | instrumenting two pieces of a block one after the other is instrumenting the whole |
| DynStatsIR.PlannedSnoc | llvm/lib/Transforms/Instrumentation/CheckedCDynStats.cpp:190-211 | a prefix one instruction longer gains that instruction and its suffix |
| DynStatsIR.PlannedSplit | llvm/lib/Transforms/Instrumentation/CheckedCDynStats.cpp:190-211 | a block split anywhere is instrumented piece by piece |
| DynStatsIR.PlannedAround | llvm/lib/Transforms/Instrumentation/CheckedCDynStats.cpp:190-211 | every original instruction is immediately followed by exactly what is inserted after it, between what precedes and what follows it |
| DynStatsIR.PlannedLayout | llvm/lib/Transforms/Instrumentation/CheckedCDynStats.cpp:190-211 | original instruction `k` sits at the end of the instrumented prefix before it, so the originals keep their relative order |
| DynStatsIR.OriginalsOfInserted | llvm/lib/Transforms/Instrumentation/CheckedCDynStats.cpp:190-211 | removing the pass-made instructions from inserted code leaves nothing |
| DynStatsIR.OriginalsAppend | llvm/lib/Transforms/Instrumentation/CheckedCDynStats.cpp:190-211 | removing the pass-made instructions works piece by piece |
| DynStatsIR.PlannedOnlyAdds | llvm/lib/Transforms/Instrumentation/CheckedCDynStats.cpp:190-211 | rewriting only adds: removing what was inserted gives back the original block, in order |
| DynStatsIR.FirstNonPhi | llvm/lib/Transforms/Instrumentation/CheckedCDynStats.cpp:135 | `getFirstNonPHI`: every earlier instruction is a PHI and the one found is not |
| DynStatsIR.PlannedAfterPhi | llvm/lib/Transforms/Instrumentation/CheckedCDynStats.cpp:135 | nothing is inserted after a leading PHI |
| DynStatsIR.FirstNonPhiPlanned | llvm/lib/Transforms/Instrumentation/CheckedCDynStats.cpp:130-135 | instrumenting leaves the first non-PHI instruction, and everything up to it, where it was |
| DynStatsIR.SuffixOfMalloc | llvm/lib/Transforms/Instrumentation/CheckedCDynStats.cpp:112-115 | malloc gets `_record_alloc(result, arg0)` and nothing else |
| DynStatsIR.SuffixOfCalloc | llvm/lib/Transforms/Instrumentation/CheckedCDynStats.cpp:112-115 | calloc gets `arg0 * arg1`, then `_record_alloc(result, product)`; with two constant arguments only `_record_alloc(result, c0 * c1 mod 2^64)` |
| DynStatsIR.SuffixOfRealloc | llvm/lib/Transforms/Instrumentation/CheckedCDynStats.cpp:117-121 | realloc gets `_record_realloc(arg0, result, arg1)` |
| DynStatsIR.SuffixOfReallocArray | llvm/lib/Transforms/Instrumentation/CheckedCDynStats.cpp:117-121 | reallocarray gets `arg1 * arg2`, then `_record_realloc(arg0, result, product)`; with two constant size arguments only the hook, with the folded product |
| DynStatsIR.SuffixOfFree | llvm/lib/Transforms/Instrumentation/CheckedCDynStats.cpp:196-199 | free gets exactly `_remove_obj_range(arg0)` |
| DynStatsIR.SuffixOfWhitelisted | llvm/lib/Transforms/Instrumentation/CheckedCDynStats.cpp:173 | a whitelisted library function gets nothing, whatever its arguments |
| DynStatsIR.SuffixOfTwoPtrArrays | llvm/lib/Transforms/Instrumentation/CheckedCDynStats.cpp:204-211 | a call passing two pointer arrays gets the pairs for the second array, then for the first |
| DynStatsIR.PlannedAllocExample | llvm/lib/Transforms/Instrumentation/CheckedCDynStats.cpp:108-123 | a malloc and a `calloc(n, 8)`, each followed by its hook, with the multiply before calloc's hook |
| DynStatsIR.PlannedFoldedExample | llvm/lib/Transforms/Instrumentation/CheckedCDynStats.cpp:110-115 | `calloc(10, 4)` is followed by `_record_alloc(result, 40)` alone: the builder folds the product |
| DynStatsIR.PlannedReallocFreeExample | llvm/lib/Transforms/Instrumentation/CheckedCDynStats.cpp:190-200 | a realloc followed by `_record_realloc`, then a free of its result followed by `_remove_obj_range` |
| DynStatsIR.PlannedLibExample | llvm/lib/Transforms/Instrumentation/CheckedCDynStats.cpp:173-211 | whitelisted strtol untouched; execve followed by the envp pair, then the argv pair |
| DynStatsPlan.IndexOfCall | llvm/lib/Transforms/Instrumentation/CheckedCDynStats.cpp:110 | finds the call with a given identity: no earlier instruction is that call |
| DynStatsPlan.Extra | llvm/lib/Transforms/Instrumentation/CheckedCDynStats.cpp:190-211 | what follows an instruction part-way through the rewriting is pass-made |
| DynStatsPlan.FindFunction | llvm/lib/Transforms/Instrumentation/CheckedCDynStats.cpp:131 | `getFunction("main")` finds a function with that name, and finds none only when there is none |
| DynStatsPlan.PlannedKeepsNames | llvm/lib/Transforms/Instrumentation/CheckedCDynStats.cpp:131-135 | instrumenting adds no function and renames none, so `main` is found where it was, still with a body |
| DynStatsPlan.FindFunctionSameNames | llvm/lib/Transforms/Instrumentation/CheckedCDynStats.cpp:131 | the lookup depends only on the function names |
| DynStatsPlan.ExpandNothing | llvm/lib/Transforms/Instrumentation/CheckedCDynStats.cpp:190-211 | a block with no site done is the original block |
| DynStatsPlan.ExpandModuleNothing | llvm/lib/Transforms/Instrumentation/CheckedCDynStats.cpp:190-211 | before the rewriting loops the module is the original |
| DynStatsPlan.ExpandComplete | llvm/lib/Transforms/Instrumentation/CheckedCDynStats.cpp:190-211 | once every site of a block is done, the block is fully instrumented |
| DynStatsPlan.ExpandModuleComplete | llvm/lib/Transforms/Instrumentation/CheckedCDynStats.cpp:190-211 | once every site of the module is done, the module is fully instrumented |
| DynStatsPlan.ExpandIgnores | llvm/lib/Transforms/Instrumentation/CheckedCDynStats.cpp:190-211 | instrumenting a call elsewhere leaves a block alone |
| DynStatsPlan.InsertAfterCallShift | llvm/lib/Transforms/Instrumentation/CheckedCDynStats.cpp:199 | a call behind a prefix without it is found, and inserted after, at the same place in the longer block |
| DynStatsPlan.ExpandInsertHead | llvm/lib/Transforms/Instrumentation/CheckedCDynStats.cpp:190-211 | a site at the head of a block is found first, and inserting its suffix after it instruments it |
| DynStatsPlan.ExpandInsertBehind | llvm/lib/Transforms/Instrumentation/CheckedCDynStats.cpp:190-211 | a site further into the block is found past everything inserted before it, and inserting its suffix there instruments it |
| DynStatsPlan.ExpandInsert | llvm/lib/Transforms/Instrumentation/CheckedCDynStats.cpp:190-211 | in a partly instrumented block, the call of a site not yet done is found, and inserting its suffix right after it gives the block with that site done too |
| DynStatsPlan.UniqueBlocks | llvm/lib/Transforms/Instrumentation/CheckedCDynStats.cpp:150-151 | call identities unique in the module are unique in each block |
| DynStatsPlan.OtherBlocksUnaffected | llvm/lib/Transforms/Instrumentation/CheckedCDynStats.cpp:190-211 | instrumenting a site changes no block other than its own |
| DynStatsPlan.ModuleInsertStep | llvm/lib/Transforms/Instrumentation/CheckedCDynStats.cpp:190-211 | one handler call: the site is found in its block of the partly instrumented module, and inserting its suffix yields the module with that site done |
| DynStatsPlan.RegisterAtExitLayout | llvm/lib/Transforms/Instrumentation/CheckedCDynStats.cpp:130-136 | only main's entry block changes: `atexit(_dump_summary)` goes before its first non-PHI instruction, and a module without `main` is unchanged |
| DynStatsPlan.InstrumentedLayout | llvm/lib/Transforms/Instrumentation/CheckedCDynStats.cpp:148-239 | the result keeps every function and block; every block is fully instrumented, and main's entry block also gets `atexit` before its first non-PHI |
| DynStatsPlan.EntryOnlyAdds | llvm/lib/Transforms/Instrumentation/CheckedCDynStats.cpp:134-135 | adding `atexit` to an instrumented block still only adds |
| DynStatsPlan.InstrumentedOnlyAdds | llvm/lib/Transforms/Instrumentation/CheckedCDynStats.cpp:190-214 | in every block of the result, removing the pass-made instructions gives back the original block in order |
| DynStatsPlan.PlannedGrows | llvm/lib/Transforms/Instrumentation/CheckedCDynStats.cpp:190-211 | a block holding a site gets longer when instrumented |
| DynStatsPlan.InstrumentChangesIff | llvm/lib/Transforms/Instrumentation/CheckedCDynStats.cpp:190-214 | the pass changes the module exactly when it has a site or a `main` |
| DynStatsPlan.UnchangedReportedForMain | llvm/lib/Transforms/Instrumentation/CheckedCDynStats.cpp:214-238 | a module with only `main` and no site has no site, so `instrument` reports it unchanged, yet its result differs from it |
| DynStatsPass.NotYetCollected | llvm/lib/Transforms/Instrumentation/CheckedCDynStats.cpp:154-188 | the call under the scan has not been collected before |
| DynStatsPass.RecordAllSites | llvm/lib/Transforms/Instrumentation/CheckedCDynStats.cpp:168-180 | recording a site adds it to exactly one list, at the end of it; a non-site changes nothing |
| DynStatsPass.RecordSound | llvm/lib/Transforms/Instrumentation/CheckedCDynStats.cpp:168-180 | every list entry remains a call of the module, classified as its list says |
| DynStatsPass.RecordDistinct | llvm/lib/Transforms/Instrumentation/CheckedCDynStats.cpp:154-188 | the lists never hold a call twice |
| DynStatsPass.BeforeLater | llvm/lib/Transforms/Instrumentation/CheckedCDynStats.cpp:158 | an entry collected before a position is still before the next one |
| DynStatsPass.RecordBefore | llvm/lib/Transforms/Instrumentation/CheckedCDynStats.cpp:158-185 | after one instruction, every entry lies at or before it |
| DynStatsPass.RecordComplete | llvm/lib/Transforms/Instrumentation/CheckedCDynStats.cpp:158-185 | after one instruction, every site up to and including it has been collected |
| DynStatsPass.ScanStep | llvm/lib/Transforms/Instrumentation/CheckedCDynStats.cpp:158-185 | scanning one instruction keeps the lists sound, complete so far, behind the scan and free of repeats |
| DynStatsPass.ScanMove | llvm/lib/Transforms/Instrumentation/CheckedCDynStats.cpp:154-188 | moving the scan over no instruction keeps what it knows |
| DynStatsPass.ScanSkipFunction | llvm/lib/Transforms/Instrumentation/CheckedCDynStats.cpp:155 | passing over a declaration keeps what the scan knows |
| DynStatsPass.ScanNextBlock | llvm/lib/Transforms/Instrumentation/CheckedCDynStats.cpp:157 | passing to the next block keeps what the scan knows |
| DynStatsPass.ScanNextFunction | llvm/lib/Transforms/Instrumentation/CheckedCDynStats.cpp:154 | passing to the next function keeps what the scan knows |
| DynStatsPass.ScanDone | llvm/lib/Transforms/Instrumentation/CheckedCDynStats.cpp:154-188 | at the end the lists hold every site of the module, only sites, each once |
| DynStatsPass.CollectPtrArgs | llvm/lib/Transforms/Instrumentation/CheckedCDynStats.cpp:175-182 | the loop over the arguments collects exactly the pointer-to-pointer ones, in order |
| DynStatsPass.CollectCall | llvm/lib/Transforms/Instrumentation/CheckedCDynStats.cpp:160-183 | one call goes to the list its classification selects, with its pointer arrays; any other call changes no list |
| DynStatsPass.CollectedIdsCover | llvm/lib/Transforms/Instrumentation/CheckedCDynStats.cpp:153-188 | the collected calls cover every site of the module |
| DynStatsPass.CollectedAnyIff | llvm/lib/Transforms/Instrumentation/CheckedCDynStats.cpp:238 | some list is non-empty exactly when the module holds a site |
| DynStatsPass.NextIdFresh | llvm/lib/Transforms/Instrumentation/CheckedCDynStats.cpp:190-211 | the next site to instrument is not yet done |
| DynStatsPass.SiteSuffix | llvm/lib/Transforms/Instrumentation/CheckedCDynStats.cpp:190-211 | each handler inserts the planned suffix of its site: the allocation hooks, `_remove_obj_range(arg0)`, or the cast pairs |
| DynStatsPass.SiteStep | llvm/lib/Transforms/Instrumentation/CheckedCDynStats.cpp:190-211 | instrumenting the `n`-th collected site takes the module from `n` sites done to `n + 1` |
| DynStatsPass.AllSitesLocated | llvm/lib/Transforms/Instrumentation/CheckedCDynStats.cpp:190-211 | every collected entry is a site of the module |
| DynStatsPass.StageStep | llvm/lib/Transforms/Instrumentation/CheckedCDynStats.cpp:190-211 | the `n`-th collected site is one insertion from stage `n` to stage `n + 1` |
| DynStatsPass.StageEnds | llvm/lib/Transforms/Instrumentation/CheckedCDynStats.cpp:190-211 | stage 0 is the original module and the last stage is the fully instrumented one |
| DynStatsPass.Stages | llvm/lib/Transforms/Instrumentation/CheckedCDynStats.cpp:190-211 | there is a chain of modules from the original to the fully instrumented, one insertion per collected site |
| DynStatsPass.SitesHooks | llvm/lib/Transforms/Instrumentation/CheckedCDynStats.cpp:190-211 | what each loop inserts for its kind of site is that site's planned suffix |
| DynStatsPass.MallocSteps | llvm/lib/Transforms/Instrumentation/CheckedCDynStats.cpp:191-193 | the first stages are the malloc loop's steps |
| DynStatsPass.FreeSteps | llvm/lib/Transforms/Instrumentation/CheckedCDynStats.cpp:196-200 | the next stages are the free loop's steps |
| DynStatsPass.ArrayCallSteps | llvm/lib/Transforms/Instrumentation/CheckedCDynStats.cpp:204-211 | the last stages are the pointer-array loop's steps |
| DynStatsPass.RewriteStages | llvm/lib/Transforms/Instrumentation/CheckedCDynStats.cpp:190-211 | the three loops in turn take the original module to the fully instrumented one |
| DynStatsPass.IRModule.constructor | llvm/lib/Transforms/Instrumentation/CheckedCDynStats.cpp:148 | the module the pass works on |
| DynStatsPass.IRModule.CollectSites | llvm/lib/Transforms/Instrumentation/CheckedCDynStats.cpp:153-188 | the collection loops: every list entry is a site of the right kind, every site is collected, and none twice |
| DynStatsPass.IRModule.HandleMalloc | llvm/lib/Transforms/Instrumentation/CheckedCDynStats.cpp:108-123 | right after the allocation call come the multiply (calloc, reallocarray, unless both factors are constants and are folded) and the record hook with the chosen size; nothing else changes |
| DynStatsPass.IRModule.HandleFree | llvm/lib/Transforms/Instrumentation/CheckedCDynStats.cpp:196-200 | right after the free comes `_remove_obj_range(arg0)`; nothing else changes |
| DynStatsPass.IRModule.HandleArrayCall | llvm/lib/Transforms/Instrumentation/CheckedCDynStats.cpp:204-211 | right after the call come the cast pairs, in reverse argument order; nothing else changes |
| DynStatsPass.IRModule.InsertCallToStatSummary | llvm/lib/Transforms/Instrumentation/CheckedCDynStats.cpp:130-136 | `atexit(_dump_summary)` before the first non-PHI of main's entry block; nothing without `main` |
| DynStatsPass.IRModule.HandleMallocs | llvm/lib/Transforms/Instrumentation/CheckedCDynStats.cpp:191-193 | the malloc loop walks its stages to the end |
| DynStatsPass.IRModule.HandleFrees | llvm/lib/Transforms/Instrumentation/CheckedCDynStats.cpp:196-200 | the free loop walks its stages to the end |
| DynStatsPass.IRModule.HandleArrayCalls | llvm/lib/Transforms/Instrumentation/CheckedCDynStats.cpp:204-211 | the pointer-array loop walks its stages to the end |
| DynStatsPass.IRModule.InstrumentSites | llvm/lib/Transforms/Instrumentation/CheckedCDynStats.cpp:190-211 | after all sites are collected, the three loops produce the fully instrumented module |
| DynStatsPass.IRModule.Instrument | llvm/lib/Transforms/Instrumentation/CheckedCDynStats.cpp:148-239 | the module becomes the instrumented module, and the result is true iff the module held a malloc, free or pointer-array site |
| DynStatsPass.IRModule.InstrumentReportingChange | llvm/lib/Transforms/Instrumentation/CheckedCDynStats.cpp:148-239 | the instrumented module, with a result that is true exactly when the module changed, i.e. when it had a site or a `main` |
| ObjSize.Narrow32 | llvm/lib/Analysis/CheckedCGetObjSize.cpp:36 | storing the alloc size in an `unsigned` keeps a value below 2^32, unchanged when it fits |
| ObjSize.SizedSizes | llvm/lib/Analysis/CheckedCGetObjSize.cpp:33-36 | every sized struct contributes its narrowed size to what the loop compares |
| ObjSize.SizedSizesFromSized | llvm/lib/Analysis/CheckedCGetObjSize.cpp:34-36 | every compared size comes from a sized struct |
| ObjSize.SizedSizesAppend | llvm/lib/Analysis/CheckedCGetObjSize.cpp:33-36 | visiting two lists in turn compares the sizes of both |
| ObjSize.FindLargestStruct | llvm/lib/Analysis/CheckedCGetObjSize.cpp:30-38 | the loop computes the maximum narrowed alloc size over the sized structs |
| ObjSize.LargestStructBounds | llvm/lib/Analysis/CheckedCGetObjSize.cpp:32-38 | the result bounds every sized struct's size; it is 0 when none is sized and otherwise the size of one of them |
| ObjSize.UnsizedIgnored | llvm/lib/Analysis/CheckedCGetObjSize.cpp:34 | an unsized struct, wherever it stands, never affects the result |
| ObjSize.LargestStructOrderIndependent | llvm/lib/Analysis/CheckedCGetObjSize.cpp:33-38 | visiting the structs in any other order gives the same result |
| ObjSize.LargestStructExactWhenSmall | llvm/lib/Analysis/CheckedCGetObjSize.cpp:36-37 | when every size fits in 32 bits, the result is the largest alloc size of a sized struct |
| ObjSize.RunOnModule | llvm/lib/Analysis/CheckedCGetObjSize.cpp:52-57 | the pass computes the largest struct size and reports the module unchanged |

## Left out

- The declarations of the runtime functions (`prepareRuntimeLibFns`,
  CheckedCDynStats.cpp:61-98) and the LLVM builder calls are left out. A
  hook call is an instruction of the abstract IR naming its hook.
- The pass's output file (`/tmp/lib_fn.stat`), the `libFuncs` set it fills
  only for that file, the `#if 0` block and the size pass's
  `/tmp/struct_size.txt` and `errs()` output are left out. Only the values
  they print are modelled.
- The runtime's debug prints and the `cout` of `_dump_summary` are left
  out; the two maxima are returned instead.
- The runtime behind `_record_alloc`, `_record_realloc` and `_cal_array_size`
  is not part of this model: `analysis_lib/analysis.cpp` defines none of
  these names (its entry points are `_record_obj_range`, `_remove_obj_range`,
  `_find_array_size` and `_dump_summary`) and has no hook for `realloc`. The
  pass's hook calls are therefore instructions, not calls into the registry.
- Debug intrinsics are not modelled, so `getNextNonDebugInstruction` is the
  next instruction.
- Invoke terminators are not modelled. A call is never a block's
  terminator, so "right after the call" always exists.
- `callsToLibArrayPtrs` is an `unordered_map`, whose iteration order is
  unspecified; the model keeps its entries in a list. The preconditions
  of `DynStatsPass.IRModule.InstrumentSites` do not depend on the order of
  that list, so its result is the same fully instrumented module for every
  visiting order.
- `DataLayout::getTypeAllocSize` is not modelled: each struct carries its
  alloc size as a given number.
- Threads are not modelled; the runtime's globals have no locking.
- `CheckedCDynStatsPass::runOnModule` is `instrument` after the
  declarations, so it is modelled by `DynStatsPass.IRModule.Instrument`.
  Adding the declarations changes the module too; since they are left
  out, `InstrumentReportingChange` counts only the changes the model has.
- AllocHooks: only two integer constants (`Const`) are folded. Any other
  LLVM constant among the factors, such as a constant expression, is an
  ordinary operand here, so the model inserts a multiply where the
  builder's folder would insert none.
- DynStatsPass.IRModule.Instrument: requires that `main`, when present, is
  a definition. The source would dereference the empty block list of a
  declared `main`.
- DynStatsPass.IRModule.Instrument: requires a well-formed module. In it,
  every collected call has the arguments its handler reads; a malloc-family
  or `free` call with too few arguments is undefined in the source.
- `_record_obj_range` records a null `start` like any other address. The
  code has no null check, so neither does the model.
- HeapRegistry.Registry.FindArraySize: guards the two unguarded steps back
  and the missing range check, so it is the intended lookup rather than
  the code as written. The code as written is `RawFindArraySize` (see
  Findings).

## Findings

| source | as written | input that shows it | evidently intended | confidence | as-written member | corrected member |
|---|---|---|---|---|---|---|
| analysis_lib/analysis.cpp:77 | `--range` on the lower bound, even when it is `begin()` | registry `{0x2000: 0x2fa0}`, lookup of `0x1320` (the lookup of analysis_lib/tests/hello.c:21) | a miss that appends nothing | not executed | HeapRegistry.RawStepsBeforeBegin | HeapRegistry.Registry.FindArraySize |
| analysis_lib/analysis.cpp:88 | `range--` on `end()` without checking that the map is non-empty | empty registry, any address | a miss that appends nothing | not executed | HeapRegistry.RawStepsBackInEmptyMap | HeapRegistry.Registry.FindArraySize |
| llvm/lib/Transforms/Instrumentation/CheckedCDynStats.cpp:238 | `instrument` returns whether a site was collected, after `insertCallToStatSummary` (line 214) has already put `atexit` into `main` | a module whose only function is `main` with the block `[ret]`: it is changed, yet reported unchanged | report a change whenever the module was changed | not executed | DynStatsPlan.UnchangedReportedForMain | DynStatsPass.IRModule.InstrumentReportingChange |
| analysis_lib/analysis.cpp:89 | appends `second - addr` without checking `addr < second` | registry `{0x1000: 0x1960}`, lookup of `0x3000` appends 2^64 - 0x16a0 | a miss that appends nothing | not executed | HeapRegistry.RawFabricatesSize | HeapRegistry.Registry.FindArraySize |
