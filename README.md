# RAPx core, modelled in Dafny

RAPx is a static analysis platform for Rust built as a `rustc` driver. This project
models the parts of it that do more than call into the compiler:

- the `rapx` driver's command line (`rapx_cli.dfy`): the flag table, the arguments
  forwarded to `rustc`, and the default arguments spliced in after the binary name;
- the data-flow analyzer (`dataflow.dfy`): one graph per body, closures folded into
  their owners, and the argument-to-return dependencies;
- unsafety isolation (`unsafety_isolation.dfy`): the graph of unsafe nodes, their
  callees, callers, constructors and methods; every method that changes the node
  table is tied to a function giving the exact table it leaves (`InsertedTable`,
  `SearchTable`, `VisitTable`, `SeedsTable`, `WalkTable`), and lemmas state what
  those tables hold; each of them also says exactly when it returns rather than
  panics (`Builds`, `VisitOk`, `SeedsBuild`, `WalkOk`);
- the function-information utilities (`fn_info.dfy`): cleaned def paths, constructor,
  method and function classification, strict types, standard unsafe callees;
- the test generator's context (`testgen_context.dfy`), its path resolver
  (`testgen_path.dfy`) and its visible-path search (`visible_path.dfy`);
- the SSA pass's `lvalue_check` and its MIR-to-DOT printer (`ssa_transform.dfy`);
- the textual form of range-analysis results (`range_analysis.dfy`).

Two shared modules hold what several of these use: `common.dfy` (`Option`, a `Result`
whose failure is a Rust panic with its message, and the string operations the Rust
code calls: `join`, `split`, `trim_end_matches`, `replace`, decimal printing) and
`rustc.dfy` (definition ids, the shapes of types and generic arguments, module
children, call terminators).

The compiler's query context, `TyCtxt`, is not modelled: every module receives a value
of total functions that answers the queries its Rust code makes (def paths, parents,
visibility, field types, MIR bodies). Everything the model proves holds for every
such oracle. A panic in the Rust code (`unwrap`, `expect`, `todo!`, an index out of
bounds) is a `Panic` result carrying the message, never a precondition. Code that
updates objects in place (the data-flow analyzer, the unsafety-isolation checker, the
test-generation context, the path resolver, the driver's callback) is modelled as
classes whose methods state their whole new state, proved against specification
functions; code that only computes is modelled as functions and lemmas.

## Model

| member | source | states |
|---|---|---|
| RapxCli.FlagTable | rapx/src/bin/rapx.rs:31-50 | `-O`/`-opt` and `-opt=all` select optimisation levels 1 and 2, `-dataflow` and `-dataflow=debug` data-flow levels 1 and 2, `-audit`, `-doc`, `-upg`, `-ucons` isolation modes 1 to 4, each and only these |
| RapxCli.FlagSetting | rapx/src/bin/rapx.rs:31-50 | the setting a flag selects: no level or mode outside those the table hands out, and every recognised flag is `-` followed by at least one character |
| RapxCli.RapCallback.constructor | rapx/src/bin/rapx.rs:29 | `RapCallback::default()` has no analysis enabled |
| RapxCli.RapCallback.Enable | rapx/src/bin/rapx.rs:32-50 | an `enable_*` call records its setting after the earlier ones |
| RapxCli.Forwarded | rapx/src/bin/rapx.rs:51 | at most as many arguments as given, each a given argument that is not a flag |
| RapxCli.ParseArgs | rapx/src/bin/rapx.rs:26-53 | the argument loop forwards exactly the non-flag arguments in order and enables exactly the settings of the flags in order |
| RapxCli.ArgsPartition | rapx/src/bin/rapx.rs:30-53 | every argument is either forwarded or enables a setting: none is lost and none is made up |
| RapxCli.ForwardedAppend | rapx/src/bin/rapx.rs:51 | forwarding keeps the arguments' order |
| RapxCli.ForwardedNoFlags | rapx/src/bin/rapx.rs:51 | without flags every argument is forwarded unchanged and nothing is enabled |
| RapxCli.SpliceDefaults | rapx/src/bin/rapx.rs:13 | `splice(1..1, defaults)` panics iff the argument list is empty; otherwise the defaults come right after the first argument and removing them gives the arguments back |
| RapxCli.CompilerArgs | rapx/src/bin/rapx.rs:11-13 | the compiler gets the binary name, the default arguments, then the non-flag arguments after the binary name, in order |
| RapxCli.Requested | rapx/src/bin/rapx.rs:31-50 | at most one setting per argument |
| DataFlow.NewGraph | rapx/src/analysis/core/dataflow/default.rs:97 | a new graph carries the item id, span, argument count and local count and has been fed nothing and records no closures |
| DataFlow.Feed | rapx/src/analysis/core/dataflow/default.rs:101-104 | feeding a statement or terminator appends it to what the graph was fed and adds the closures it defines, nothing else changes |
| DataFlow.GraphOfClosures | rapx/src/analysis/core/dataflow/default.rs:99-107 | a closure is recorded in a body's graph iff some statement or terminator of some block of that body defines it |
| DataFlow.BodyInputsAppend | rapx/src/analysis/core/dataflow/default.rs:99-106 | the inputs of a body are those of its first blocks followed by those of the rest: blocks are fed whole and in block order |
| DataFlow.BodyInputsLength | rapx/src/analysis/core/dataflow/default.rs:99-106 | a body feeds exactly one input per statement plus one per present terminator |
| DataFlow.ScanBody | rapx/src/analysis/core/dataflow/default.rs:96-106 | the block scan of `build_graph` yields the graph of the body: every block's statements in order, then its terminator if present |
| DataFlow.FeedBlock | rapx/src/analysis/core/dataflow/default.rs:100-105 | one block appends its statements in order and then its terminator, keeping the closure set equal to the closures of everything fed |
| DataFlow.DataFlowAnalyzer.constructor | rapx/src/analysis/core/dataflow/default.rs:65-71 | a new analyzer has an empty cache, which is trivially valid |
| DataFlow.DataFlowAnalyzer.NestedBuilt | rapx/src/analysis/core/dataflow/default.rs:107-110 | a cached item has every closure nested in it, at any depth, cached too |
| DataFlow.DataFlowAnalyzer.BuildGraph | rapx/src/analysis/core/dataflow/default.rs:92-111 | afterwards `id` is cached; entries present before are unchanged; an already cached id changes nothing (idempotence); only `id` and closures nested in it are added; the cache stays closed under closure references and every entry is its body's graph |
| DataFlow.DataFlowAnalyzer.BuildGraphs | rapx/src/analysis/core/dataflow/default.rs:80-90 | every local `Fn`/`AssocFn` item with a body is built, earlier entries are kept, and nothing outside what those roots nest is added |
| DataFlow.DataFlowAnalyzer.Reset | rapx/src/analysis/core/dataflow/default.rs:59-61 | the cache is empty afterwards |
| DataFlow.DataFlowAnalyzer.GetFnDataflow | rapx/src/analysis/core/dataflow/default.rs:11-13 | `Some` iff the item is cached, holding the conversion of its graph |
| DataFlow.DataFlowAnalyzer.GetAllDataflow | rapx/src/analysis/core/dataflow/default.rs:15-20 | exactly the cache's key set, each value the conversion of that key's graph |
| DataFlow.DataFlowAnalyzer.HasFlowBetween | rapx/src/analysis/core/dataflow/default.rs:22-25 | panics iff the item is not cached, otherwise the graph's connectivity answer |
| DataFlow.DataFlowAnalyzer.CollectEquivalentLocals | rapx/src/analysis/core/dataflow/default.rs:27-30 | panics iff the item is not cached, otherwise the graph's equivalent locals |
| DataFlow.DataFlowAnalyzer.GetFnArg2Ret | rapx/src/analysis/core/dataflow/default.rs:32-35 | panics iff the item is not cached, otherwise the graph's parameter-to-return dependencies |
| DataFlow.DataFlowAnalyzer.GetAllArg2Ret | rapx/src/analysis/core/dataflow/default.rs:37-44 | exactly the cache's key set, each value the dependencies of that key's graph |
| UnsafetyIsolation.NewNode | rapx/src/analysis/unsafety_isolation/mod.rs:105-106 | a new node carries the given id, type, name, safety and crate-API flag, with every list empty and unvisited |
| UnsafetyIsolation.FindNode | rapx/src/analysis/unsafety_isolation/mod.rs:147 | the index of the first node with the id, or `None` iff no node has it |
| UnsafetyIsolation.FindNodeStable | rapx/src/analysis/unsafety_isolation/mod.rs:147 | growing the table at its end never moves the first node of an id that was already present |
| UnsafetyIsolation.TrimStart | rapx/src/analysis/unsafety_isolation/mod.rs:161 | the cut of `trim`'s leading side: everything before it is white space and the character at it is not |
| UnsafetyIsolation.TrimEnd | rapx/src/analysis/unsafety_isolation/mod.rs:161 | the cut of `trim`'s trailing side: everything after it is white space and the character before it is not |
| UnsafetyIsolation.Trim | rapx/src/analysis/unsafety_isolation/mod.rs:161 | `str::trim`: the slice starting after the leading white space, followed only by white space, with no white space at either end |
| UnsafetyIsolation.GetName | rapx/src/analysis/unsafety_isolation/mod.rs:153-170 | a trait item is named by the empty string, an impl item by a name holding the `.` between type and method, any other function by a suffix of its path |
| UnsafetyIsolation.GetNameOfFunction | rapx/src/analysis/unsafety_isolation/mod.rs:167-169 | a free function at `a::b::name` is named `name` |
| UnsafetyIsolation.GetNameOfMethod | rapx/src/analysis/unsafety_isolation/mod.rs:156-165 | a method `name` in an impl for `Type<...>` is named `Type.name` |
| UnsafetyIsolation.ConstructorIdsSound | rapx/src/analysis/unsafety_isolation/mod.rs:184-197 | every id the constructor search reports is an associated `Fn` among the searched items that `get_type` classifies as a constructor |
| UnsafetyIsolation.ConstructorIdsComplete | rapx/src/analysis/unsafety_isolation/mod.rs:184-197 | conversely, every associated `Fn` among the searched items that `get_type` classifies as a constructor is reported, unless the search panics |
| UnsafetyIsolation.ConstructorIdsWithoutTypeItems | rapx/src/analysis/unsafety_isolation/mod.rs:174-205 | as written, when no associated `type` item names the method's ADT, the search reports no constructor at all, whatever the ADT's impls hold |
| UnsafetyIsolation.IntendedFindsConstructor | rapx/src/analysis/unsafety_isolation/mod.rs:174-205 | searching the ADT's impl blocks instead finds every constructor of every one of them |
| UnsafetyIsolation.BuiltNodeOfNonMethod | rapx/src/analysis/unsafety_isolation/mod.rs:282-290 | a node for a function that is not a method is built without a constructor search and has the type `get_type` gives |
| UnsafetyIsolation.BlockCalleesSound | rapx/src/analysis/unsafety_isolation/mod.rs:249-255 | every listed callee is unsafe and is the constant `FnDef` callee of some block's call terminator; a successful scan means every block had a terminator |
| UnsafetyIsolation.StartReportsSound | rapx/src/analysis/unsafety_isolation/mod.rs:56-76 | only unsafe functions are reported; under `Doc` only those lacking a doc comment, under `Ucons` only constructors |
| UnsafetyIsolation.UnsafeRelatedIdsMembers | rapx/src/analysis/unsafety_isolation/mod.rs:97-111 | an id is recorded iff some related function with that id is unsafe or holds an unsafe block |
| UnsafetyIsolation.UnsafetyIsolationCheck.constructor | rapx/src/analysis/unsafety_isolation/mod.rs:37-45 | the node table and the crate-API list start empty |
| UnsafetyIsolation.UnsafetyIsolationCheck.CheckIfNodeExists | rapx/src/analysis/unsafety_isolation/mod.rs:146-151 | true iff some node has the id |
| UnsafetyIsolation.UnsafetyIsolationCheck.IsCrateApiNode | rapx/src/analysis/unsafety_isolation/mod.rs:274-276 | true iff the id is in the crate-API list |
| UnsafetyIsolation.UnsafetyIsolationCheck.SetMethodForConstructor | rapx/src/analysis/unsafety_isolation/mod.rs:295-305 | the table becomes `WithMethod`: no-op without a node for the constructor; otherwise only the first such node's `methods` changes, gaining the method once at the end if absent |
| UnsafetyIsolation.UnsafetyIsolationCheck.SetCallerForCallee | rapx/src/analysis/unsafety_isolation/mod.rs:307-317 | the table becomes `WithCaller`: no-op without a node for the callee; otherwise only the first such node's `callers` changes, gaining the caller once at the end if absent |
| UnsafetyIsolation.UnsafetyIsolationCheck.CheckAndInsertNode | rapx/src/analysis/unsafety_isolation/mod.rs:278-293 | an existing id leaves the table unchanged; otherwise it panics iff building the node panics, and on success the table is exactly `InsertedTable`: a method's constructor search, then the built node appended last |
| UnsafetyIsolation.UnsafetyIsolationCheck.InsertNewNode | rapx/src/analysis/unsafety_isolation/mod.rs:282-292 | for an id without a node: panics iff building its node panics; otherwise the table is exactly `InsertedTable` |
| UnsafetyIsolation.UnsafetyIsolationCheck.BuildNode | rapx/src/analysis/unsafety_isolation/mod.rs:282-290 | the node built is the one `get_type`, `get_name`, `check_safety` and the crate-API list determine, with a method's constructors; the table is exactly `SearchTable` for a method and unchanged otherwise, and none of the nodes added is the id's own |
| UnsafetyIsolation.UnsafetyIsolationCheck.SearchConstructor | rapx/src/analysis/unsafety_isolation/mod.rs:174-205 | returns the constructors among the associated items of the ids `get_impls_for_struct` yields for the method's ADT (the associated `type` items naming it, see Findings), nothing outside an ADT impl; the table is exactly `SearchTable`, in which each constructor has a node that records the method |
| UnsafetyIsolation.UnsafetyIsolationCheck.RecordConstructors | rapx/src/analysis/unsafety_isolation/mod.rs:184-200 | the item loop returns exactly the constructors among the items, in order; the table is exactly `RecordTable` of them, which records the method on each one's node |
| UnsafetyIsolation.NewIds | rapx/src/analysis/unsafety_isolation/mod.rs:184-197 | the constructors met that had no node are exactly those of the list without a node, each once |
| UnsafetyIsolation.RecordTableShape | rapx/src/analysis/unsafety_isolation/mod.rs:184-200 | the search's table in closed form: of the older nodes only the first node of each constructor met changes, by gaining the method once; a node is appended exactly for each constructor met without one, in the order met, and it is the node `check_and_insert_node` builds for a constructor with the method as its only entry in `methods` |
| UnsafetyIsolation.RecordTableRecorded | rapx/src/analysis/unsafety_isolation/mod.rs:184-200 | the search's table only appends constructor nodes and extends `methods` lists, and every constructor met has a node recording the method |
| UnsafetyIsolation.SearchTableFacts | rapx/src/analysis/unsafety_isolation/mod.rs:174-205 | a constructor search only appends constructor nodes and extends `methods` lists of older nodes |
| UnsafetyIsolation.InsertedTableFacts | rapx/src/analysis/unsafety_isolation/mod.rs:278-293 | inserting an id without a node: the built node is appended last and is the one found for the id, every node appended before it is a constructor's, and the older nodes only gain methods |
| UnsafetyIsolation.InsertedTableGrew | rapx/src/analysis/unsafety_isolation/mod.rs:278-293 | after `check_and_insert_node` the id has a node, the older nodes only gain methods, and every appended node is the id's or a constructor's |
| UnsafetyIsolation.UnsafetyIsolationCheck.VisitNodeCallees | rapx/src/analysis/unsafety_isolation/mod.rs:244-272 | returns the unsafe constant callees without repeats in first-occurrence block order, and the table is exactly `VisitTable`: callees without a node inserted in that order with the visited function as caller, then the visited function's node given the list and marked visited; every callee has a node, callees recorded as inserted had none, and of the older nodes only the visited one changes otherwise than by gaining methods; it returns normally exactly when `VisitOk` holds of the table it started on: every block of the body has a terminator, and every unsafe callee had a node already or has one whose `get_type` and, for a method, constructor search succeed (`Builds`); otherwise it panics |
| UnsafetyIsolation.UnsafetyIsolationCheck.CollectCallees | rapx/src/analysis/unsafety_isolation/mod.rs:249-265 | the block loop yields the deduplicated unsafe callee list, and the table is exactly `CalleeTable` of it: each callee without a node when met is inserted and given the visited function as caller, and nothing else happens; it returns normally exactly when every block has a terminator and every unsafe callee had a node before the loop or `Builds` |
| UnsafetyIsolation.UnsafetyIsolationCheck.VisitBlock | rapx/src/analysis/unsafety_isolation/mod.rs:250-262 | one block extends the deduplicated callee list exactly as the callee specification does for one more block, and the table stays `CalleeTable` of the list so far, with the callee and appended-node accounts; it returns normally exactly when the block has a terminator and every callee met so far had a node before the loop or `Builds` |
| UnsafetyIsolation.UnsafetyIsolationCheck.NoteCallee | rapx/src/analysis/unsafety_isolation/mod.rs:254-259 | a callee met for the first time: the table becomes `CalleeTable` of the list extended by it, and it has a node afterwards; when it had none it is recorded as inserted and its new node has the visited function as caller; it returns normally exactly when the callee had a node before the loop or `Builds` (a node appended during the loop is a constructor's, which always builds) |
| UnsafetyIsolation.CalleeInsertedNode | rapx/src/analysis/unsafety_isolation/mod.rs:254-259 | a callee without a node when met: the table is extended by a method's constructor search and then exactly the node `check_and_insert_node` builds for it, with the visited function as its only caller |
| UnsafetyIsolation.UnsafetyIsolationCheck.FilterAndExtendUnsafe | rapx/src/analysis/unsafety_isolation/mod.rs:90-132 | every unsafe or interior-unsafe related function is recorded as crate API, enqueued, expanded, and its node holds its unsafe callees and is marked visited; no id is enqueued or expanded twice; exactly the enqueued crate-API ids are expanded; the queue is closed under the unsafe callees of expanded ids, every id enqueued beyond the seeds is an unsafe callee of an expanded id, and the table is exactly `WalkTable` over the expanded ids of `SeedsTable` of the related functions; it returns normally exactly when every unsafe related function's node builds (`SeedsBuild`) and every expanded id's visit returns on the table the earlier visits left (`WalkOk`) |
| UnsafetyIsolation.UnsafetyIsolationCheck.SeedUnsafe | rapx/src/analysis/unsafety_isolation/mod.rs:97-117 | the crate-API list grows by the unsafe related ids; the queue holds each of them once in first-occurrence order, and each has a node; the table is exactly `SeedsTable` of the related functions; it returns normally exactly when the node of every unsafe related function builds (`SeedsBuild`) |
| UnsafetyIsolation.UnsafetyIsolationCheck.SeedOne | rapx/src/analysis/unsafety_isolation/mod.rs:102-115 | one related function: the crate-API list, the deduplicated queue and the table (`SeedsTable`) grow as the first phase specifies for one more function, `visited` stays the queue's set, and every queued id has a node; it returns normally exactly when the function is not unsafe or its node builds |
| UnsafetyIsolation.UnsafetyIsolationCheck.SeedNode | rapx/src/analysis/unsafety_isolation/mod.rs:103-110 | the pushed node is the one built with the function's own unsafety and as crate API; panics iff building it panics; queued ids keep their nodes; the table is exactly `SeedTable` |
| UnsafetyIsolation.SeedsTableGrew | rapx/src/analysis/unsafety_isolation/mod.rs:97-117 | the first phase only appends nodes and extends `methods` lists: a seeded method's constructor search can record it on constructor nodes already in the table |
| UnsafetyIsolation.UnsafetyIsolationCheck.Explore | rapx/src/analysis/unsafety_isolation/mod.rs:119-131 | the queue keeps its seed and never receives an id twice; only crate-API ids are expanded, each once, and all enqueued crate-API ids are; every callee of an expanded id is enqueued, every id enqueued beyond the seed is the callee of an expanded id, each expanded id that had a node is marked on it with its callee list, and the table is exactly `WalkTable`: the visits of the expanded ids, in order; it returns normally exactly when `WalkOk` holds: each expanded id's visit returns on the table the earlier visits left |
| UnsafetyIsolation.UnsafetyIsolationCheck.ExpandHead | rapx/src/analysis/unsafety_isolation/mod.rs:120-130 | one turn of the loop keeps the walk's invariant (closure, provenance, marks, no repeats, the table as `WalkTable` of the expanded ids) and makes progress: a crate-API head leaves one fewer crate function unpopped and is expanded, any other head shortens the queue and is skipped; the turn returns normally exactly when the head is not crate API or its visit returns (`VisitOk` of the table before the turn) |
| UnsafetyIsolation.UnsafetyIsolationCheck.ExpandCrate | rapx/src/analysis/unsafety_isolation/mod.rs:125-130 | the turn for a crate-API head: pops it, visits its callees and enqueues the unseen ones, keeping the walk's invariant and the table as `WalkTable` of the expanded ids extended by the head; the head is expanded whether or not the visit returns, and the turn returns normally exactly when `VisitOk` holds of the table before it |
| UnsafetyIsolation.BlockCalleesPrefix | rapx/src/analysis/unsafety_isolation/mod.rs:249-265 | a scan of the blocks that completes completes on every prefix, and finds there only callees the whole scan finds, so a panic in an early block is a panic of the whole scan |
| UnsafetyIsolation.WalkOkTurn | rapx/src/analysis/unsafety_isolation/mod.rs:120-130 | one turn of the walk keeps `WalkOk` exactly when it returns: a crate-API head is expanded and the turn returns iff its visit does; any other head is skipped |
| UnsafetyIsolation.WalkTableKept | rapx/src/analysis/unsafety_isolation/mod.rs:119-131 | the breadth-first walk keeps every node's id in place and only appends nodes |
| UnsafetyIsolation.WalkOkFromStart | rapx/src/analysis/unsafety_isolation/mod.rs:119-131 | the walk returns when the visit of every id it expands would return on the table it started from: every callee that has a node then still has one later |
| UnsafetyIsolation.ReachedEnqueued | rapx/src/analysis/unsafety_isolation/mod.rs:119-131 | against reachability: once the walk is closed and has expanded every enqueued crate function, every function reachable from an enqueued one by a chain of unsafe calls through crate functions is enqueued |
| UnsafetyIsolation.UnsafetyIsolationCheck.Start | rapx/src/analysis/unsafety_isolation/mod.rs:47-77 | `StdSp` and `Upg` produce no reports and do not scan the related functions (`StdSp` delegates to a handler outside this model); `Doc` and `Ucons` produce exactly the reports of the related-function scan |
| FnInfo.CleanFirst | rapx/src/analysis/utils/fn_info.rs:69-83 | the first segment becomes `core`, `std` or `alloc` when it mentions that word, checked in that order, and is removed (`None`) iff it mentions none of them |
| FnInfo.KeepSegments | rapx/src/analysis/utils/fn_info.rs:85-98 | no longer than its input; every segment without `{` is kept, and every result segment is such a segment or the struct name, the latter only when the first segment was removed |
| FnInfo.KeepSegmentsReplace | rapx/src/analysis/utils/fn_info.rs:85-98 | with the first segment removed and a struct name at hand, the rewrite is a map: each `{` segment becomes the name in its place, every other segment stays, order kept |
| FnInfo.KeepSegmentsDrop | rapx/src/analysis/utils/fn_info.rs:85-98 | otherwise (first segment kept, or no struct name) it is the filter of the segments without `{`, order kept |
| FnInfo.CleanedParts | rapx/src/analysis/utils/fn_info.rs:64-98 | the cleaned segments in closed form: the crate name followed by the `{`-free segments of the rest; or, with the first segment removed, the rest with `{` segments replaced by the struct name, or dropped when there is none |
| FnInfo.GetCleanedDefPathName | rapx/src/analysis/utils/fn_info.rs:62-103 | the joined cleaned path never ends with `)` |
| FnInfo.GetStructName | rapx/src/analysis/utils/fn_info.rs:132-150 | `Some` iff the item belongs to an impl |
| FnInfo.StructNameOfPath | rapx/src/analysis/utils/fn_info.rs:136-144 | a printed self type `a::b::Name<T>` yields the struct name `Name` |
| FnInfo.GetPointee | rapx/src/analysis/utils/fn_info.rs:318-328 | the result is neither a raw pointer nor a reference |
| FnInfo.GetPointeeIdempotent | rapx/src/analysis/utils/fn_info.rs:318-328 | stripping twice equals stripping once, and an extra pointer or reference layer changes nothing |
| FnInfo.IsStrictTyAsWritten | rapx/src/analysis/utils/fn_info.rs:474-485 | as written, within a depth bound: only a struct pointee makes it recurse (or run out), any other pointee answers at once, strict iff `bool` or `str`; a strict answer comes from such a pointee or a struct |
| FnInfo.IsStrictTyAsWrittenDiverges | rapx/src/analysis/utils/fn_info.rs:474-485 | as written, on `struct Node { next: *mut Node }` the recursion never bottoms out: every depth bound runs out |
| FnInfo.IsStrictTy | rapx/src/analysis/utils/fn_info.rs:474-485 | the cut predicate: decided by the pointee alone, true for a `bool` or `str` pointee, and true only for those or a struct |
| FnInfo.IsStrictTyOnNode | rapx/src/analysis/utils/fn_info.rs:473-485 | with the recursion cut at structs already being examined, `*mut Node` is not strict and becomes strict once `Node` has a `bool` field |
| FnInfo.IsStrictTyAgrees | rapx/src/analysis/utils/fn_info.rs:474-485 | on well-founded struct definitions the as-written predicate returns within a depth bound and agrees with the cut version: strict iff the pointee is `bool` or `str` or a struct with at least one strict field |
| FnInfo.StrictAgrees | rapx/src/analysis/utils/fn_info.rs:474-485 | the agreement above for any type below the structs being examined, given enough depth |
| FnInfo.IsStrictTyThroughPointers | rapx/src/analysis/utils/fn_info.rs:475 | strictness looks through pointers and references: wrapping a type keeps its strictness |
| FnInfo.IsStrictTyConvert | rapx/src/analysis/utils/fn_info.rs:469-471 | true iff the destination is strict, or the source is strict and the destination is a mutable raw pointer or a `&mut` reference |
| FnInfo.StrictToOwnMutPtr | rapx/src/analysis/utils/fn_info.rs:469-471 | casting a strict value to a mutable pointer to its own type is reported |
| FnInfo.GetTypeAsWritten | rapx/src/analysis/utils/fn_info.rs:159-218 | the classifier as written, the one every other member uses: 2 for a non-associated item, 1 iff an associated `Fn` with `self`, never above 2; panics iff an associated item is not a `Fn` (`todo!`) or an `Option`/`Result` wrapper's first argument is not a type |
| FnInfo.GetType | rapx/src/analysis/utils/fn_info.rs:159-218 | the corrected classifier of the `Box` finding below, stated only for comparison: the same bounds, method test and panics, with the struct `Box` also counted as a wrapper |
| FnInfo.GetTypeConstructor | rapx/src/analysis/utils/fn_info.rs:167-211 | as written, without `self`: constructor iff the output is `Self`, the impl type, a reference to one of those, or an `Option`/`Result` enum (or an enum named `box`) of one of those; a `Box<Self>` output, a struct, does not count |
| FnInfo.BoxConstructorMissed | rapx/src/analysis/utils/fn_info.rs:192-197 | as written, `fn f() -> Box<Self>` is classified as a plain function; the corrected classifier calls it a constructor |
| FnInfo.GetTypeAgreesOffBox | rapx/src/analysis/utils/fn_info.rs:159-218 | apart from `Box`, the as-written and the corrected classifier agree on every item |
| FnInfo.ConstructorsAmongSound | rapx/src/analysis/utils/fn_info.rs:242-248 | every reported constructor is a `Fn`/`AssocFn` among the items that `get_type` classifies as 0, with its own safety |
| FnInfo.GetCons | rapx/src/analysis/utils/fn_info.rs:229-255 | nothing for a free function or a constructor (early exit); otherwise the constructors among the inherent impls' items of the self type's ADT, in order; panics when classifying panics |
| FnInfo.CollectConstructors | rapx/src/analysis/utils/fn_info.rs:241-250 | the impl loop yields the constructors among all impls' items, impl by impl |
| FnInfo.ConstructorsOfItems | rapx/src/analysis/utils/fn_info.rs:242-249 | the item loop extends the constructors found so far with those among the given items |
| FnInfo.PublicFields | rapx/src/analysis/utils/fn_info.rs:393-397 | an index is in the set iff it is a field index whose field is public |
| FnInfo.GetPublicFields | rapx/src/analysis/utils/fn_info.rs:391-398 | every index returned is a field index of the ADT |
| FnInfo.MatchStdUnsafeCallee | rapx/src/analysis/utils/fn_info.rs:452-465 | at most one name: the cleaned path of the constant callee, and only when it is a standard-library unsafe API |
| FnInfo.GetAllStdUnsafeCalleesBlockId | rapx/src/analysis/utils/fn_info.rs:433-450 | strictly ascending block indices, exactly those whose terminator matches no standard-library unsafe callee; panics iff some block lacks a terminator |
| FnInfo.StdUnsafeCallMatches | rapx/src/analysis/utils/fn_info.rs:452-467 | a terminator has a non-empty standard-library unsafe match iff it calls such an API through a constant `FnDef`, so the list above leaves out exactly those blocks |
| FnInfo.StdUnsafeCalleeBlocks | rapx/src/analysis/utils/fn_info.rs:417-431 | the list as its name promises, reading the blocks as `get_all_std_unsafe_callees` does: strictly ascending indices of exactly the blocks that call a standard-library unsafe API; panics iff some block lacks a terminator |
| FnInfo.GetImplsForStruct | rapx/src/analysis/utils/fn_info.rs:281-302 | as written: the ids of exactly the associated `type` items whose type is a path resolving to the struct, empty iff there is none |
| FnInfo.ImplsForStructIntended | rapx/src/analysis/utils/fn_info.rs:281-302 | as its comment promises: exactly the crate's impl blocks whose self type is the ADT |
| TestgenContext.InputVar | rapx/src/analysis/testgen/generator/context.rs:82-93 | the variable made for an input of type `ty` is numbered `d` past the next free number, `d` being the reference depth, and is an input iff `ty` is not a reference |
| TestgenContext.InputStmtsShape | rapx/src/analysis/testgen/generator/context.rs:82-93 | a type `d` references deep yields `d + 1` statements numbered consecutively: one input statement first, then reference statements each pointing at the variable before it, the last defining the returned variable |
| TestgenContext.RemoveOutcome | rapx/src/analysis/testgen/generator/context.rs:117-135 | panics iff the variable is not the dummy and is unavailable (or has no type); `true` iff it is available and its type is `&mut` or not `Copy`; `false` otherwise, including for the dummy |
| TestgenContext.ConsumeShrinks | rapx/src/analysis/testgen/generator/context.rs:98-106 | the argument loop only ever removes providers |
| TestgenContext.ConsumeNeedsProviders | rapx/src/analysis/testgen/generator/context.rs:98-101 | the loop gets through `k` parameters only when there are at least `k` arguments and each is the dummy or an available typed variable |
| TestgenContext.ConsumeFromEmpty | rapx/src/analysis/testgen/generator/context.rs:98-106 | from an empty available set, the loop succeeds iff every argument is the dummy, and the set stays empty |
| TestgenContext.RemoveOutcomeOnOlder | rapx/src/analysis/testgen/generator/context.rs:117-135 | variables made later do not change the outcome for variables typed earlier |
| TestgenContext.Context.constructor | rapx/src/analysis/testgen/generator/context.rs:33-40 | no statements, no providers, no variables |
| TestgenContext.Context.TypeOf | rapx/src/analysis/testgen/generator/context.rs:46-48 | the recorded type; panics iff the variable was never made |
| TestgenContext.Context.AllPossibleProviders | rapx/src/analysis/testgen/generator/context.rs:54-74 | the dummy input first iff the type is fuzzable, then, without repeats, exactly the available variables whose type equals the requested one |
| TestgenContext.Context.MkVar | rapx/src/analysis/testgen/generator/context.rs:76-80 | returns `Var(n, is_input)` for `n` the number of variables before the call, a new key; the type map gains exactly that entry |
| TestgenContext.Context.AddInputStmt | rapx/src/analysis/testgen/generator/context.rs:82-93 | appends exactly the input-statement chain for the type (one statement for a non-reference, an input var), makes `d + 1` variables, keeps every earlier type, and returns a new variable of the requested type |
| TestgenContext.Context.RemoveVarFromAvailable | rapx/src/analysis/testgen/generator/context.rs:117-135 | returns the outcome above; the variable leaves the available set iff the outcome is `true`, otherwise nothing changes |
| TestgenContext.DummyInputStmts | rapx/src/analysis/testgen/generator/context.rs:98-105 | the statements the argument loop emits for its first parameters, each dummy's input statements numbered from where the previous ones stopped; the variable count moves by exactly one per statement |
| TestgenContext.Context.AddCallStmt | rapx/src/analysis/testgen/generator/context.rs:95-114 | panics iff the argument loop does; otherwise the statements become the old ones, then the input statements of each dummy argument in parameter order (numbered on from the variable count), then the `Call` statement with the filled call, defined by a new non-input variable typed by the output type; each dummy argument has been replaced by a fresh variable of its parameter type |
| TestgenContext.Context.FillArgs | rapx/src/analysis/testgen/generator/context.rs:98-106 | every dummy among the parameters' arguments is replaced by a fresh input built for the parameter type, other arguments are unchanged; the statements grow by exactly the input statements of the dummies, in order; the providers shrink as the outcomes say |
| TestgenContext.Context.FillArg | rapx/src/analysis/testgen/generator/context.rs:99-105 | one parameter of the loop: it panics only where consuming one more argument panics; otherwise the filled prefix grows by one argument, a dummy replaced by a fresh input of the parameter type whose input statements are appended, and the providers shrink as the outcomes say |
| TestgenContext.Context.PlaceArg | rapx/src/analysis/testgen/generator/context.rs:102-104 | after the removal: a dummy becomes a fresh input whose statements are appended in order and any other argument stays, keeping the loop's state for one more parameter |
| TestgenPath.ChildPathJoins | rapx/src/analysis/testgen/path.rs:21-27 | `path_str` is the identifier alone under the empty path and `path::ident` otherwise, so paths built child by child from the root are the names joined by `::` |
| TestgenPath.BuildKeeps | rapx/src/analysis/testgen/path.rs:44-53 | the walk never overwrites: an id already recorded keeps its first path |
| TestgenPath.BuildRecords | rapx/src/analysis/testgen/path.rs:44-50 | every public child that resolves to a definition has a path afterwards |
| TestgenPath.BuildOnlyRecordable | rapx/src/analysis/testgen/path.rs:45-50 | every id the walk adds is the definition of some public child of some module |
| TestgenPath.BuildExtendsPath | rapx/src/analysis/testgen/path.rs:49-53 | below a module at a non-empty path, every path the walk adds, at any depth, starts with `path::` |
| TestgenPath.OneTupleAsWritten | rapx/src/analysis/testgen/path.rs:74-76 | as written, a one-element tuple renders as its element in parentheses, which Rust reads as the element type itself |
| TestgenPath.TupleText | rapx/src/analysis/testgen/path.rs:74-76 | the corrected tuple text equals the as-written one for every length other than 1 |
| TestgenPath.OneTupleDistinct | rapx/src/analysis/testgen/path.rs:74-76 | the corrected one-element tuple text is not the parenthesised element and ends in `,)` |
| TestgenPath.PathResolver.constructor | rapx/src/analysis/testgen/path.rs:15-19 | `get_path_resolver`: the table is exactly the result of the walk from the crate root with the empty path; it asks for a rank only on the modules the walk reaches from the root |
| TestgenPath.PathResolver.Build | rapx/src/analysis/testgen/path.rs:37-56 | the loop over the children leaves the table equal to the recursive walk's table (see the walk lemmas above), for a module the walk can reach |
| TestgenPath.SelfReexportUnranked | rapx/src/analysis/testgen/path.rs:51-52 | a module listed among its own public module-like children admits no rank once the walk can reach it |
| TestgenPath.ClosedRootRanked | rapx/src/analysis/testgen/path.rs:40-47 | a root whose module-like children are all private or unresolved is ranked on its own, whatever cycles lie behind them, since the walk skips private children |
| TestgenPath.SelfReexportDiverges | rapx/src/analysis/testgen/path.rs:44-53 | as written, the walk of such a module runs out of any nesting bound, whatever table and path it starts from |
| TestgenPath.BuildOnce | rapx/src/analysis/testgen/path.rs:44-53 | the corrected walk, which descends only into a module recorded just now, is defined (ends) on every crate whose children resolve within a finite set of ids, re-export cycles included, and keeps every path already recorded |
| TestgenPath.BuildOnceRecords | rapx/src/analysis/testgen/path.rs:44-50 | the corrected walk records every public child of the module that resolves to a definition |
| TestgenPath.SelfReexportVisitedOnce | rapx/src/analysis/testgen/path.rs:44-53 | the corrected walk of a module whose only child is itself records it once under its own name and stops |
| TestgenPath.PathResolver.PathStr | rapx/src/analysis/testgen/path.rs:58-66 | the recorded path when there is one, otherwise the compiler's def path |
| TestgenPath.PathResolver.TyStr | rapx/src/analysis/testgen/path.rs:68-93 | the text shows the kind of a structural type: a tuple is wrapped in `(`…`)`, an array or slice in `[`…`]`, a reference starts with `&`, a raw pointer with `*` |
| TestgenPath.PathResolver.OneTupleRendersAsElement | rapx/src/analysis/testgen/path.rs:74-76 | as written, a one-element tuple renders as its element in parentheses, and panics exactly when its element does |
| TestgenPath.PathResolver.TysStrEach | rapx/src/analysis/testgen/path.rs:75 | the element texts exist iff every element renders, and then they are the elements' texts, in order |
| TestgenPath.PathResolver.TyStrBalanced | rapx/src/analysis/testgen/path.rs:68-93 | a type built from arrays, slices, tuples, pointers and references over leaves whose compiler text is balanced renders without panicking, with balanced parentheses and square brackets |
| TestgenPath.PathResolver.TysStr | rapx/src/analysis/testgen/path.rs:75 | one text per tuple element |
| TestgenPath.PathResolver.ArgStrs | rapx/src/analysis/testgen/path.rs:105-113 | one text per generic argument |
| TestgenPath.PathResolver.GenericArgIterStr | rapx/src/analysis/testgen/path.rs:100-119 | `None` iff there are no arguments, else the argument texts joined by `", "`; panics iff some argument's text does |
| TestgenPath.PathResolver.ConstArgPanics | rapx/src/analysis/testgen/path.rs:107-111 | a constant argument panics iff it has no `usize` value; a lifetime is written as it is |
| TestgenPath.PathResolver.PathStrWithIter | rapx/src/analysis/testgen/path.rs:121-177 | for every item: an associated item's parent takes its arguments from the front of the list and the item's own arguments come next; the base is the parent's rendering plus `::name` for an associated item and the item's path otherwise, followed by `::<a, b>` iff the own arguments are non-empty; it panics iff the base or an own argument does |
| TestgenPath.PathResolver.TraitImplItemPath | rapx/src/analysis/testgen/path.rs:134-150 | an item of a trait impl renders as `<S as T>::name`, or `<S as T<a, b>>::name` when the trait has arguments beyond `Self`, with `S` the impl's self type and `T` the trait's path |
| TestgenPath.PathResolver.InherentItemPath | rapx/src/analysis/testgen/path.rs:151-159 | an item of an inherent impl renders as `S::name`, with `S` the impl's self type instantiated with the parent's arguments |
| TestgenPath.PathResolver.OtherAssocParentPanics | rapx/src/analysis/testgen/path.rs:160-163 | an associated item whose parent is not an impl reaches `unreachable!` |
| TestgenPath.PathResolver.PathWithArgs | rapx/src/analysis/testgen/path.rs:168-176 | a non-associated item with own generic arguments renders as `path::<a, b>` |
| VisiblePath.ItemName | rapx/src/analysis/testgen/syn/visible_path.rs:46 | the item's name; panics iff the item has none |
| VisiblePath.FirstReexport | rapx/src/analysis/testgen/syn/visible_path.rs:81-103 | `None` iff no child targets the id, is public and is not named `_` |
| VisiblePath.FindReexportInModule | rapx/src/analysis/testgen/syn/visible_path.rs:75-104 | the scan of a local or foreign module returns the name of the first child that targets the id, is public and is not named `_`, and `None` otherwise |
| VisiblePath.FirstReexportAt | rapx/src/analysis/testgen/syn/visible_path.rs:82-89 | the first re-exporting child determines the answer, whatever follows it |
| VisiblePath.ChainShape | rapx/src/analysis/testgen/syn/visible_path.rs:110-118 | the walk visits `target` first, then each parent of the previous item, never `ancestor`, and ends just below `ancestor` or at a root; it is empty iff `target` is `ancestor` |
| VisiblePath.NamesReversed | rapx/src/analysis/testgen/syn/visible_path.rs:111-120 | the names in reverse order, one per item; panics iff some item has no name |
| VisiblePath.GetRelativePath | rapx/src/analysis/testgen/syn/visible_path.rs:106-122 | the names of the walked items in root-to-leaf order joined by `::`, stopping below `ancestor` or at the root; panics iff a walked item has no name |
| VisiblePath.Reverse | rapx/src/analysis/testgen/syn/visible_path.rs:120 | `Vec::reverse`: same length, element `i` is element `n-1-i` of the input |
| VisiblePath.VisiblePathOf | rapx/src/analysis/testgen/syn/visible_path.rs:35-73 | a non-local id always gets the def path |
| VisiblePath.VisiblePathPriority | rapx/src/analysis/testgen/syn/visible_path.rs:36-48 | a root re-export of the item wins; otherwise a root re-export of its parent gives `parent_name::item_name`; without a parent the def path is used |
| VisiblePath.AncestorPathNearest | rapx/src/analysis/testgen/syn/visible_path.rs:50-61 | the ancestor walk picks the nearest ancestor with a root re-export (none below it has one) and yields `name::relative_path`; when it finds none, no ancestor up to the root has one |
| VisiblePath.Ancestors | rapx/src/analysis/testgen/syn/visible_path.rs:51-61 | the ancestors considered start at the given one and follow the parents |
| VisiblePath.GetVisiblePath | rapx/src/analysis/testgen/syn/visible_path.rs:35-73 | the loops compute the visible path: direct root re-export, then parent re-export plus `::name`, then nearest re-exported ancestor plus relative path, then the def path |
| VisiblePath.ArgTexts | rapx/src/analysis/testgen/syn/visible_path.rs:15-25 | lifetimes are dropped; the result is empty iff every argument is a lifetime |
| VisiblePath.ArgTextsAppend | rapx/src/analysis/testgen/syn/visible_path.rs:15-25 | dropping lifetimes keeps the other arguments' texts in order |
| VisiblePath.GetVisiblePathWithArgs | rapx/src/analysis/testgen/syn/visible_path.rs:6-33 | the visible path, followed by `::<a, b>` with the type and constant arguments when there are any; arguments that are all lifetimes leave the base path unchanged |
| SsaTransform.MatchAt | rapx/src/analysis/core/ssa_transform/mod.rs:103-107 | a match found at `i` is the pattern `_(\d+)\s*=` there, with its digit group and end |
| SsaTransform.MatchAtExact | rapx/src/analysis/core/ssa_transform/mod.rs:103-107 | wherever the pattern matches at `i`, MatchAt finds that match, digit group and end |
| SsaTransform.Captures | rapx/src/analysis/core/ssa_transform/mod.rs:107 | every captured group is a non-empty run of digits |
| SsaTransform.ParseU32 | rapx/src/analysis/core/ssa_transform/mod.rs:108 | `parse::<u32>().unwrap()` succeeds iff the decimal value is below 2^32, gives that value, and otherwise panics with the overflow message |
| SsaTransform.ParseAll | rapx/src/analysis/core/ssa_transform/mod.rs:107-108 | parsing the groups in order succeeds iff every value fits in `u32`, giving each group's value; otherwise the overflow panic |
| SsaTransform.LvalueVerdictMeaning | rapx/src/analysis/core/ssa_transform/mod.rs:102-123 | the check panics iff some captured number is 2^32 or more; otherwise it answers true iff the captured numbers are pairwise distinct in value; a text without assignments is accepted |
| SsaTransform.LvalueCheck | rapx/src/analysis/core/ssa_transform/mod.rs:102-123 | the counting loop returns the verdict: a panic when a number overflows `u32`, otherwise whether no local is assigned twice |
| SsaTransform.CountOne | rapx/src/analysis/core/ssa_transform/mod.rs:109-113 | one counter update keeps the map equal to the occurrence counts and the flag equal to "some count exceeds one" |
| SsaTransform.ParseAllAppend | rapx/src/analysis/core/ssa_transform/mod.rs:107-108 | parsing concatenated groups is parsing each part; a panic in either part is the overflow panic |
| SsaTransform.NoDupSnoc | rapx/src/analysis/core/ssa_transform/mod.rs:109-113 | one more local keeps the numbers distinct iff it is new |
| SsaTransform.LeadingZerosCollide | rapx/src/analysis/core/ssa_transform/mod.rs:107-113 | an example: `_01 =` and `_1 =` count as the same local, so the check reports a duplicate |
| SsaTransform.StatementTexts | rapx/src/analysis/core/ssa_transform/mod.rs:158-169 | at most one text per statement, and no text contains a newline |
| SsaTransform.StorageInvisible | rapx/src/analysis/core/ssa_transform/mod.rs:161-166 | a `StorageLive`/`StorageDead` statement contributes nothing to the label, wherever it stands |
| SsaTransform.StatementShown | rapx/src/analysis/core/ssa_transform/mod.rs:167 | any other statement appears as its debug text with newlines replaced by spaces |
| SsaTransform.StatementsOneLine | rapx/src/analysis/core/ssa_transform/mod.rs:158-169 | the statement part of a label has no newline |
| SsaTransform.TerminatorText | rapx/src/analysis/core/ssa_transform/mod.rs:171-177 | `NoTerminator` without a terminator, empty for `Assert`, otherwise the debug text (unchanged when it holds no `->`) |
| SsaTransform.EdgeLineInjective | rapx/src/analysis/core/ssa_transform/mod.rs:190 | an edge line names its two blocks: equal lines come from the same edge |
| SsaTransform.EdgeLinesCount | rapx/src/analysis/core/ssa_transform/mod.rs:188-192 | one line per successor |
| SsaTransform.NodeLineIsOneLine | rapx/src/analysis/core/ssa_transform/mod.rs:179-186 | a node line is a single line when the terminator text has no newline |
| SsaTransform.MirDot | rapx/src/analysis/core/ssa_transform/mod.rs:152-197 | the text starts with the two header lines and ends with the closing brace line |
| SsaTransform.MirToDot | rapx/src/analysis/core/ssa_transform/mod.rs:152-197 | the loop over blocks builds exactly the DOT text of the body |
| SsaTransform.PushBlock | rapx/src/analysis/core/ssa_transform/mod.rs:156-193 | one block appends exactly its node line followed by one edge line per successor, in order |
| SsaTransform.PushEdges | rapx/src/analysis/core/ssa_transform/mod.rs:188-192 | the edge lines of every successor, appended in order |
| SsaTransform.MirDotLines | rapx/src/analysis/core/ssa_transform/mod.rs:152-197 | the text has three frame lines, one line per block and one per edge |
| SsaTransform.FrameLines | rapx/src/analysis/core/ssa_transform/mod.rs:154-155 | the header is two lines and the footer one |
| RangeAnalysis.RangeTypeStr | rapx/src/analysis/core/range_analysis/mod.rs:175-184 | the range type prints as `Unknown`, `Regular` or `Empty`, a non-empty word without spaces |
| RangeAnalysis.RangeTypeStrInjective | rapx/src/analysis/core/range_analysis/mod.rs:175-184 | distinct range types print differently |
| RangeAnalysis.MinValue | rapx/src/analysis/core/range_analysis/mod.rs:203 | `T::min_value()`: negative for a signed type, zero for an unsigned one |
| RangeAnalysis.MaxValue | rapx/src/analysis/core/range_analysis/mod.rs:205 | `T::max_value()`: positive and above the minimum |
| RangeAnalysis.BoundName | rapx/src/analysis/core/range_analysis/mod.rs:203-207 | a bound is named `Min` iff it is the type's minimum, `Max` iff it is the maximum, and is otherwise unnamed |
| RangeAnalysis.RangeStr | rapx/src/analysis/core/range_analysis/mod.rs:198-228 | the text is the range type, ` [`, the two bounds and `]`, and it names an extreme (`Min`/`Max`) exactly when both bounds are extremes; a single extreme bound prints as a number |
| RangeAnalysis.RangeStrExamples | rapx/src/analysis/core/range_analysis/mod.rs:202-227 | examples for every integer type and range type: the full range prints as `[Min, Max]`, the reversed one as `[Max, Min]`, and a range with only one extreme bound prints both as numbers |
| RangeAnalysis.RangeStrInjective | rapx/src/analysis/core/range_analysis/mod.rs:198-228 | two ranges of the same integer type that print alike are equal |
| RangeAnalysis.PartsAvoid | rapx/src/analysis/core/range_analysis/mod.rs:202-227 | the printed range is the type followed by its two bound texts, and the lower text has no comma |
| RangeAnalysis.PartsDetermine | rapx/src/analysis/core/range_analysis/mod.rs:202-227 | the two bound texts determine both bounds |
| RangeAnalysis.Insert | rapx/src/analysis/core/range_analysis/mod.rs:96 | inserting into a list sorted by local keeps it sorted, adds exactly the entry and grows it by one |
| RangeAnalysis.SortByLocal | rapx/src/analysis/core/range_analysis/mod.rs:95-96 | `sort_by_key` on the local index gives a list sorted by local that is a permutation of the entries |
| RangeAnalysis.InsertAtEnd | rapx/src/analysis/core/range_analysis/mod.rs:96 | an entry whose local is at least every other goes last |
| RangeAnalysis.InsertStable | rapx/src/analysis/core/range_analysis/mod.rs:96 | an inserted entry comes after every entry with the same local |
| RangeAnalysis.SortByLocalStable | rapx/src/analysis/core/range_analysis/mod.rs:95-96 | the sort is stable: for every local, the entries with that local (such as `_1` and `_1.0`) keep the order in which the map yielded them |
| RangeAnalysis.ResultText | rapx/src/analysis/core/range_analysis/mod.rs:71-82 | `RAResultWrapper` prints one line `place => range` per entry, unindented and unsorted, in the map's iteration order |
| RangeAnalysis.ResultMapText | rapx/src/analysis/core/range_analysis/mod.rs:83-103 | `RAResultMapWrapper` prints the title, then one block per function in the map's order, each block its name and its entries sorted by local |
| RangeAnalysis.FnVecText | rapx/src/analysis/core/range_analysis/mod.rs:114-126 | one function's block of `RAVecResultMapWrapper`: its name, then its result sets in order, numbered from 0 |
| RangeAnalysis.VecResultMapText | rapx/src/analysis/core/range_analysis/mod.rs:105-130 | `RAVecResultMapWrapper` prints the title, then one block per function in the map's order |
| RangeAnalysis.SortByLocalKeepsSorted | rapx/src/analysis/core/range_analysis/mod.rs:120-121 | entries already in order by local are left as they are |
| RangeAnalysis.SortedUnique | rapx/src/analysis/core/range_analysis/mod.rs:95-96 | two lists sorted by local that hold the same entries are equal when no two entries with the same local differ, so the sorted order is unique |
| RangeAnalysis.FnResultTextOrderFree | rapx/src/analysis/core/range_analysis/mod.rs:92-100 | a function's block of the printed result map is the same for every order in which the hash map yields its entries, when no two places share a local |
| RangeAnalysis.ResultSetTextOrderFree | rapx/src/analysis/core/range_analysis/mod.rs:117-125 | a result set of the printed vector map is the same for every iteration order of its hash map, when no two places share a local |
| Common.Dedup | rapx/src/analysis/unsafety_isolation/mod.rs:254-255 | keeping each element only at its first occurrence leaves the same elements, each once, and is no longer than the input |
| Common.PushUnique | rapx/src/analysis/unsafety_isolation/mod.rs:301-303 | `if !v.contains(&x) { v.push(x) }`: afterwards `x` is present; the list is unchanged if it was already there, and otherwise gains `x` at its end, so a duplicate-free list stays duplicate-free |
| Common.DedupSnoc | rapx/src/analysis/unsafety_isolation/mod.rs:254-255 | one more element is kept iff it has not been seen before |
| Common.Split | rapx/src/analysis/utils/fn_info.rs:64-65 | `str::split` always yields at least one part |
| Common.JoinSplit | rapx/src/analysis/utils/fn_info.rs:64-67 | joining the parts of a split with the same separator gives the text back |
| Common.TrimEndMatches | rapx/src/analysis/utils/fn_info.rs:101 | `trim_end_matches` keeps a prefix, drops only trailing matches, and leaves no trailing match |
| Common.ReplaceChar | rapx/src/analysis/core/ssa_transform/mod.rs:167 | `replace('\n', " ")` changes exactly the newlines, keeping the length |
| Common.ReplaceAllAbsent | rapx/src/analysis/core/ssa_transform/mod.rs:174 | replacing `->` in a text that does not contain it leaves the text unchanged |
| Common.NatToString | rapx/src/analysis/core/ssa_transform/mod.rs:181-186 | the decimal text of a number is non-empty digits without a leading zero |
| Common.NatToStringRoundTrip | rapx/src/analysis/core/ssa_transform/mod.rs:181-186 | reading back the decimal text gives the number |
| Common.NatToStringInjective | rapx/src/analysis/core/ssa_transform/mod.rs:181-190 | different numbers print differently, so block numbers are recoverable from the DOT text |
| Common.IntToString | rapx/src/analysis/core/range_analysis/mod.rs:209-211 | the decimal text of an integer starts with `-` iff it is negative |
| Common.IntToStringInjective | rapx/src/analysis/core/range_analysis/mod.rs:209-211 | different integers print differently |
| Rustc.ConstantCallee | rapx/src/analysis/unsafety_isolation/mod.rs:250-252 | a call terminator names a callee iff its function operand is a constant of `FnDef` type, and the callee is that definition |

## Left out

- `TyCtxt` and every compiler query (def paths, parents, visibility, MIR bodies, field and signature types, attributes, diagnostic items) are parameters: total functions the model is proved for, not the compiler's answers.
- The trait solver is not modelled: where the Rust code compares types for equality (an output against the impl's self type), the model compares the `Ty` values.
- Hash-map and hash-set iteration order is an input: maps the Rust code iterates are sequences in the order given.
- `Graph` (the data-flow graph) is not part of this model beyond what the analyzer does with it: its construction is recorded as the statements and terminators it was fed, and `is_connected`, `collect_equivalent_locals` and `param_return_deps` are oracle answers.
- `draw_graphs`, `show_nodes`, `print_diff`, `print_mir_graph`, logging (`rap_info!`, `rap_warn!`, `rap_trace!`, `init_log`) and every file write are I/O and are left out; the SSA warning loop after counting only logs.
- `get_sp`, `get_sp_json`, `check_doc` and the documentation checks read source files and attributes through the compiler and are left out.
- `SSATrans::start`, `analyze_mir` and the `PassRunner` renaming passes are not modelled: only `lvalue_check` and `mir_to_dot` are.
- The `regex` crate is replaced by a scanner for the one pattern `_(\d+)\s*=`; `\s` is the Unicode `White_Space` property, as the crate matches it by default.
- SsaTransform.MatchAt: `\d` is taken as the ASCII digits only. The crate's default `\d` also matches every other Unicode decimal digit (`\p{Nd}`), which `parse::<u32>` then rejects: on a text such as `_٣ =` the Rust code panics with `InvalidDigit`, while the model finds no match there and `LvalueCheck` can answer `true`.
- The `RangeAnalysis` trait's methods are declarations without bodies in this file and are left out; the path-constraint wrappers' `Display` prints compiler values through `{:?}` and is left out.
- Floating point does not occur in the modelled code.
- The `rustc_driver` invocation, the panic hook and the exit code of `rapx` are left out; `run_complier` is modelled up to the splice of the default arguments.
- `lib.rs` is not part of this model: `RAP_DEFAULT_ARGS` is a parameter, and each `enable_*` call is recorded as the setting it selects.
- `stmt.rs` is not part of this model: `DUMMY_INPUT_VAR` is a parameter of the test-generation context.
- TestgenContext.Context.Complexity: carries no contract; it returns the number of statements emitted, which `AddInputStmt` and `AddCallStmt` state exactly.
- UnsafetyIsolation.UnsafetyIsolationCheck.Start: under `StdSp` the Rust code calls `handle_std_unsafe` before returning (mod.rs:49); that method is defined in a file that is not part of this model, so the model only returns with no reports.
- UnsafetyIsolation.UnsafetyIsolationCheck.SearchConstructor: the ids `get_impls_for_struct` yields are those of associated `type` items, not of impl blocks, and `associated_items` is then asked about them; the oracle `associatedItemIds` answers for such ids freely, and what the compiler does when asked for the associated items of something that is not an impl or a trait is not modelled (see Findings).
- The `available` set of the test-generation context is never inserted into anywhere in `context.rs`; the model keeps that behaviour.
- SsaTransform.LvalueCheck: the per-local counters are unbounded; the `i32` counter could only overflow after 2^31 assignments of one local.
- RangeAnalysis.MinValue: `isize` and `usize` are taken as 64 bits wide.
- TestgenPath.PathResolver.TyStr: the rendering takes a fuel bound on how often it turns to a type the compiler computes (an impl's self type or trait reference); running out is a `Panic` the Rust code does not have.
- TestgenPath.PathResolver.Build: requires a rank on the modules the walk reaches from the root through public module-like children (every such child ranks below its parent); modules behind a private child are unconstrained. A crate whose reachable public modules form a cycle, such as a public `pub mod prelude { pub use super::*; }`, has no such rank, and on it `build` as written does not end (see Findings).
- DataFlow.DataFlowAnalyzer.BuildGraph: requires closures to nest in a well-founded way, which the compiler's closures do.
- VisiblePath.GetRelativePath: requires parents to be ranked (every parent ranks below its child), which the compiler's def tree is.
- FnInfo.IsStrictTy: the corrected predicate stops at structs already being examined; the Rust code recurses without that cut (see Findings).
- RapxCli.ParseArgs: the arguments are taken as strings; `env::args()` panics on an argument that is not valid Unicode, which the model cannot express.
- `Vec::splice`, `Vec::push` and the other in-place vector updates are modelled on values: the new vector is the result, with no aliasing to observe.

## Findings

| source | as written | input that shows it | evidently intended | confidence | as-written member | corrected member |
|---|---|---|---|---|---|---|
| rapx/src/analysis/utils/fn_info.rs:192-197 | the wrapper test requires `adt_def.is_enum()`, but `Box` is a struct, so the `Box` case never applies; the model follows the code as written everywhere | `impl S { fn f() -> Box<Self> }` is classified as a plain function (2) | a function returning `Box<Self>` is a constructor (0), like `Option<Self>` and `Result<Self, _>` | not executed | FnInfo.GetTypeAsWritten, FnInfo.BoxConstructorMissed | FnInfo.GetType, FnInfo.GetTypeAgreesOffBox |
| rapx/src/analysis/utils/fn_info.rs:474-485 | `is_strict_ty` recurses into every field of a struct, through pointers, with no record of the structs already being examined | `struct Node { next: *mut Node }`: `is_strict_ty(*mut Node)` never returns | a self-referential struct is strict iff some field outside the cycle is `bool` or `str` | not executed | FnInfo.IsStrictTyAsWritten, FnInfo.IsStrictTyAsWrittenDiverges | FnInfo.IsStrictTy, FnInfo.IsStrictTyOnNode |
| rapx/src/analysis/testgen/path.rs:74-76 | a tuple is rendered as `(` + its element texts joined by `, ` + `)`; the model renders tuples as written | the one-tuple `(u8,)` is rendered `(u8)`, which Rust reads as `u8` | a one-element tuple keeps its trailing comma: `(u8,)` | not executed | TestgenPath.TupleTextAsWritten, TestgenPath.OneTupleAsWritten | TestgenPath.TupleText, TestgenPath.OneTupleDistinct |
| rapx/src/analysis/testgen/path.rs:51-52 | `build` descends into every public module-like child, even one whose id `or_insert` found already recorded | `pub mod prelude { pub use super::*; }` makes `prelude` a public child of itself, so `build` on it calls itself forever | a module already recorded is not walked again, so the walk ends on every crate | not executed | TestgenPath.BuildFuel, TestgenPath.SelfReexportDiverges | TestgenPath.BuildOnce, TestgenPath.SelfReexportVisitedOnce |
| rapx/src/analysis/utils/fn_info.rs:281-302 | `get_impls_for_struct` collects the `owner_id` of every associated `type` item whose type resolves to the struct: ids of `type` items, not of impl blocks, which `search_constructor` (unsafety_isolation/mod.rs:186-187) then treats as impls | `struct S; impl S { fn new() -> S { S } fn get(&self) {} }` has no associated `type` item naming `S`, so the constructor search from `get` finds nothing, and `new` is never recorded as a constructor of `get` | the impl blocks of the struct, as the function's comment says, so that `new` is found | not executed | FnInfo.GetImplsForStruct, UnsafetyIsolation.ConstructorIdsWithoutTypeItems | FnInfo.ImplsForStructIntended, UnsafetyIsolation.IntendedFindsConstructor |
| rapx/src/analysis/utils/fn_info.rs:433-450 | `get_all_std_unsafe_callees_block_id` pushes a block when `match_std_unsafe_callee` is empty, that is, when its terminator calls no standard-library unsafe API; the model follows the code as written | a body whose only call is `ptr::read` in block 0: block 0 is left out and every other block is listed | the blocks that do call such an API, the ones whose callees `get_all_std_unsafe_callees` collects | not executed | FnInfo.GetAllStdUnsafeCalleesBlockId, FnInfo.StdUnsafeCallMatches | FnInfo.StdUnsafeCalleeBlocks |
