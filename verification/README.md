# Objective-Z, modelled and proved in Dafny

Objective-Z turns Objective-C into C. The transpiler inserts reference counting and
resolves message sends at build time; an older C runtime did the same work dynamically.
This project models both, and the build-time analyses beside them, and proves that they
keep their promises on every input, every run and every interleaving.

`dafny verify dfyconfig.toml` checks the whole project.

## What is modelled

**Compile-time ARC** (`ArcSyntax`, `ArcEmission`, `ArcEmitter`, `ArcFragment`, `ArcMachine`,
`ArcTokens`, `ArcBalance`, `ArcMeaning`, `ArcFaithful`, `ArcScoping`, `ArcMethods`, `ArcBoundary`,
`ArcRuns`).
A small source language of object variables, strong ivars, scopes, `@synchronized`, branches,
loops and exits; the statement emitters, once as functions (`ArcEmission`) and once as the
context-updating methods they are (`ArcEmitter`), proved to write the same; and an interpreter
for the emitted C over a heap of counts, in which every condition, every owning call and every
borrowed value is a choice of the environment, and in which the code that a call or a condition
runs may retain, release, create and store objects with references of its own.
There are two main theorems. `ArcFaithful.MethodFaithful`: the code emitted for any body, in the
fragment or not, does what the source says, which `ArcMeaning` defines without any counts;
`ArcScoping` adds that it names variables only where they are declared.
`ArcMethods.MethodBalanced`: whatever the choices and whatever the callees do, the code emitted
for a body of the fragment touches no freed object and leaves the count of every object equal to
the references to it. `ArcFragment` says which bodies these are; `ArcBoundary` says exactly when
six forms outside it go wrong, by conditions that can be told before the statement, and `ArcRuns`
has a run of each that frees an object still referred to, miscounts it, or never frees it.

**The emitted object runtime** (`ObjectHeap`, `Cascade`, `ManagedHeap`). The root class's
`retain` and `release` and the chain of `dealloc` functions, as a cascading deallocator over
an object graph. One release frees exactly the objects that nothing keeps any more.

**Retain-cycle check** (`ClassGraph`, `RetainCycles`, `NoLeaks`, `LeakCheck`). Inheritance
propagation, the three-colour depth-first search, and the deduplication of its reports: every
way in which a class can reach itself shares an edge with a cycle that is reported. And the
link to the object runtime: if the check finds no cycle, giving up the outside references frees
exactly the objects that no immortal one keeps, and if it finds one, there is a heap that leaks.

**The legacy class runtime** (`Probing`, `MethodTable`, `IvarLayout`, `ClassMetadata`,
`ResolutionState`, `ClassRuntime`). The open-addressing method table, lazy class resolution
with ivar layout, the one-shot load of categories, and the superclass walk. The specification
is the metadata alone: `ResolutionState.Defined` is the implementation that classes and
categories define, and `ClassRuntime.Runtime.Run` shows that every message finds it, whatever
was looked up before.

**Flat dispatch** (`SelectorMap`, `SelectorIds`, `FlatDispatch`, `LostSelector`). The selector map,
its pointer cache, the numbering of selectors, and the table filled by a fixpoint loop that
copies parent rows. The table answers what the metadata define if and only if the selectors
known at build time and those that have a method are together not more than the ids. The
generated sizes leave no id when the number of known selectors is a power of two above one;
`LostSelector` runs a program that loses a method in this way.

**Atomic properties and blocks** (`AtomicProperty`, `AtomicHistory`, `BlockFlags`, `Blocks`,
`BlockCopies`, `BlockRuntime`). The accessors as a protocol of single atomic actions, interleaved
in every possible way, proved linearizable to a plain map of properties and free of deadlock; and
blocks, whose reference count lives in bits 1 to 15 of a flags word, updated by word arithmetic,
whose captures cascade, and whose copies capture what the literals capture.

**Static resolution** (`Hierarchy`, `Resolve`, `Devirtualise`, `DispatchWitnesses`). Cycle validation, class ids, depths,
the order of `+initialize`, dispatch classification, vtables, and the class that a call
resolves to. The direct calls of a selector reach the functions that dynamic dispatch would
find if and only if a condition on the declarations holds; `DispatchWitnesses` has a module
for each way in which it fails.

**Other build-time computations** (`AllocCount`, `MacroSplice`). Counting allocations over the
call graph, and splicing patches into macro text.

Conventions. Counts are unbounded integers, except where a word's width is the point: the
method hash and the selector hash use 32-bit arithmetic, and a block's count has 15 bits. A
table size that the C code uses as a mask is a power of two, so masking is `%`.
Properties of code that updates state are proved about values (a heap, a
runtime state, a table) and the methods that update it are proved to produce those values.

The documentation comment of `_emit_strong_ivar_assign` says that it emits
`retain(new); release(old); ivar = new;` the code retains parameters only and moves locals.
The model follows the code.

## Model

| member | source | states |
|---|---|---|
| ObjectHeap.Release | tools/oz_transpile/emit.py:889-904 | a release leaves classes, immortality and the fields of all objects alone and revives nothing; it terminates because every dealloc takes one live object away |
| ObjectHeap.RunDealloc | tools/oz_transpile/emit.py:2742-2778 | the same for the statements of a dealloc function and the chain behind it |
| ObjectHeap.ReleaseCascade | tools/oz_transpile/emit.py:889-904 | giving up one held reference restores the count equation without a fault and keeps every object that a self-supporting set of objects keeps |
| ObjectHeap.DeallocCascade | tools/oz_transpile/emit.py:2742-2778 | running a dealloc chain gives up each reference that the object's ivars hold and frees it |
| Cascade.ReleaseExact | tools/oz_transpile/emit.py:889-904 | after one release exactly those objects are alive that some self-supporting set contains, and the count equation holds again |
| Cascade.ReachableSurvives | tools/oz_transpile/emit.py:889-904 | nothing reachable from a remaining outside reference is freed |
| Cascade.FreedMeansZero | tools/oz_transpile/emit.py:889-904 | what a release frees has no reference left |
| Cascade.ExpandReleasesEachOnce | tools/oz_transpile/emit.py:2742-2778 | the chain of a class releases every strong ivar of every ancestor once, in order, before the single free |
| Cascade.ChainIsLine | tools/oz_transpile/emit.py:2742-2778 | running the chained dealloc functions is running that one line |
| Cascade.RetainCounts | tools/oz_transpile/emit.py:881-887 | a retain of a live object adds one held reference |
| Cascade.StoreCounts | tools/oz_transpile/emit.py:2640-2693 | releasing an ivar and overwriting it moves one reference from the caller's hands into the ivar |
| ManagedHeap.Memory.RetainObject | tools/oz_transpile/emit.py:881-887 | the in-place retain computes Retain |
| ManagedHeap.Memory.ReleaseObject | tools/oz_transpile/emit.py:889-904 | the in-place release, with its early returns and the deallocating flag, computes Release |
| ManagedHeap.Memory.Dealloc | tools/oz_transpile/emit.py:2742-2778 | the in-place dealloc functions compute RunDealloc |
| ArcEmitter.Emitter.EmitScopeReleases | tools/oz_transpile/emit.py:2443-2452 | writes ScopeReleases of the context |
| ArcEmitter.Emitter.EmitBreakContinueReleases | tools/oz_transpile/emit.py:2426-2440 | writes the releases of all frames down to the innermost loop |
| ArcEmitter.Emitter.EmitReturnStmt | tools/oz_transpile/emit.py:2455-2498 | writes the releases of all tracked variables except the returned and the moved ones, then the return |
| ArcEmitter.Emitter.EmitVarDecl | tools/oz_transpile/emit.py:1145-1185 | tracks the variable and retains a borrowed initialiser, as EmitDecl says |
| ArcEmitter.Emitter.EmitStrongLocalAssign | tools/oz_transpile/emit.py:2607-2637 | writes the retain, release and assignment of EmitAssign and un-consumes the variable |
| ArcEmitter.Emitter.EmitStrongIvarAssign | tools/oz_transpile/emit.py:2640-2693 | writes EmitStoreIvar: retained parameters, moved locals, temporaries for calls |
| ArcEmitter.Emitter.EmitCompoundStmt | tools/oz_transpile/emit.py:935-966 | pushes a frame, emits the children, releases unless the last one is a return, pops |
| ArcEmitter.Emitter.EmitSynchronizedStmt | tools/oz_transpile/emit.py:969-1009 | the same around a lock variable with a fresh name |
| ArcEmitter.Emitter.EmitStatement | tools/oz_transpile/emit.py:1020-1142 | for each kind of statement in the model it writes EmitStmt, which does what the source says (StmtFaithful) and balances (StmtBalanced), and leaves the context it says; the kinds it has not are under Left out |
| ArcEmitter.EmitMethodBody | tools/oz_transpile/emit.py:935-966 | a whole body is EmitMethod of its parameters and statements |
| ArcFragment.StmtExtends | tools/oz_transpile/emit.py:1020-1142 | emitting a statement keeps the frames and loop depths of the context and at most adds names to the innermost frame |
| ArcBalance.DeclBalanced | tools/oz_transpile/emit.py:1145-1185 | after a declaration the new variable owns one reference |
| ArcBalance.AssignBalanced | tools/oz_transpile/emit.py:2607-2637 | reassignment gives up the old reference and takes the new one |
| ArcBalance.StoreBalanced | tools/oz_transpile/emit.py:2640-2693 | an ivar store releases the old value once and moves or retains the new one |
| ArcBalance.ReturnBalanced | tools/oz_transpile/emit.py:2455-2498 | a return releases every tracked variable once except a returned one, which carries its reference out |
| ArcBalance.JumpBalanced | tools/oz_transpile/emit.py:2426-2440 | break and continue release exactly the variables inside the loop |
| ArcBalance.IfBalanced | tools/oz_transpile/emit.py:1188-1224 | both branches leave the same variables in scope with exact counts |
| ArcBalance.WhileBalanced | tools/oz_transpile/emit.py:1049-1063 | any number of iterations of a loop, left in any way, balances |
| ArcBalance.LockedBalanced | tools/oz_transpile/emit.py:969-1009 | a @synchronized body releases its lock on every exit |
| ArcBalance.StmtBalanced | tools/oz_transpile/emit.py:1020-1142 | every statement of the fragment keeps the count equation on every path |
| ArcFaithful.StmtFaithful | tools/oz_transpile/emit.py:1020-1142 | the code emitted for a statement, in any context, falls through, jumps or returns as the statement of the source does, with the same returned value, variables, ivars and choices left, unless it touches freed memory or a choice names something that is not there; if choices name nothing that could be missing, it is cut off only where the source is |
| ArcFaithful.MethodFaithful | tools/oz_transpile/emit.py:935-966 | the same for the body of a method with its parameters, whether or not its counts balance |
| ArcScoping.StmtScoped | tools/oz_transpile/emit.py:1020-1142 | wherever a statement that names visible variables and shadows none is emitted, the code does so too, with lock variables and temporaries under names that are not visible yet and releases of visible variables only |
| ArcScoping.MethodScoped | tools/oz_transpile/emit.py:935-966 | so is the code of a whole method, with its parameters visible |
| ArcScoping.MethodLexical | tools/oz_transpile/emit.py:935-966 | a run of it depends on the parameters alone: no variable is read before its declaration or after its block |
| ArcMethods.MethodBalanced | tools/oz_transpile/emit.py:935-966 | on every path of the code emitted for a method of the fragment, and whatever its callees do with references of their own, no freed object is touched, counts stay exact, and every variable left is released exactly once except a returned one |
| ArcMethods.MethodRight | tools/oz_transpile/emit.py:935-966 | in the fragment nothing faults, so the method ends as its source does, with the same values, and counts exactly |
| ArcMethods.QuietMethodBalanced | tools/oz_transpile/emit.py:935-966 | if its callees leave the heap alone, a method call as a whole changes no count but that of the object it returns |
| ArcTokens.AskOwns | tools/oz_transpile/emit.py:1137-1142 | a call or condition, whatever it retains, releases, stores or creates on the way, leaves the references of the tracked variables counted and the receiver alive |
| ArcBoundary.AssignUnownedExact | tools/oz_transpile/emit.py:2627-2632 | assigning a borrowed call, self or an ivar to a tracked variable keeps the counts right if and only if the value, which can be told before the statement, is nil or immortal |
| ArcBoundary.DeclIvarExact | tools/oz_transpile/emit.py:1164-1183 | a declaration initialised from an ivar keeps the counts right if and only if the ivar, before the statement, holds nil or an immortal object |
| ArcBoundary.StoreUnownedExact | tools/oz_transpile/emit.py:2640-2693 | storing a borrowed call, self or an ivar into an ivar keeps the counts right if and only if the value, told before the statement, is nil or immortal |
| ArcBoundary.LockFreshExact | tools/oz_transpile/emit.py:981-994 | a lock on an owning call keeps the counts right if and only if the call returns nil or an immortal object, since nothing gives up the reference it returned |
| ArcBoundary.DeclMovedExact | tools/oz_transpile/emit.py:2443-2452 | declaring again a name that was moved into an ivar keeps the counts right if and only if its value is nil or immortal, since the variable is not released |
| ArcBoundary.AssignMovedExact | tools/oz_transpile/emit.py:2607-2637 | assigning to a name that was moved into an ivar, while the ivar holds its value and if the assigned call does nothing else, keeps the counts right if and only if that value is nil or immortal, since it is released all the same |
| ArcBoundary.AssignMoved | tools/oz_transpile/emit.py:2607-2637 | if a moved name holds nil or an immortal object, assigning to it balances, whatever a call does, and puts it back in scope |
| ArcRuns.BorrowedReassigned | tools/oz_transpile/emit.py:2627-2632 | a run of a method that reassigns a variable from a borrowed call: it ends with the borrowed object freed while its owner still refers to it |
| ArcRuns.IvarDeclared | tools/oz_transpile/emit.py:1164-1183 | a run of a method that initialises a variable from an ivar: it ends with the object freed while the ivar still refers to it |
| ArcRuns.BorrowedStored | tools/oz_transpile/emit.py:2640-2693 | a run of a method that stores a borrowed object in an ivar: two references and a count of one |
| ArcRuns.FreshLocked | tools/oz_transpile/emit.py:981-994 | a run of @synchronized on a created object, which is never freed |
| ArcRuns.MovedRedeclared | tools/oz_transpile/emit.py:2443-2452 | a run of a method that declares a moved name again: the second object is never freed |
| ArcRuns.MovedReassigned | tools/oz_transpile/emit.py:2607-2637 | a run of a method that assigns nil to a moved name: the object is freed while the ivar still refers to it |
| RetainCycles.CycleDetector.Dfs | scripts/objz_check_cycles.py:335-348 | the search from a white node terminates, blackens it, keeps the path of gray nodes, keeps what it has recorded, which are simple cycles, and finishes nodes in an order in which every edge leads to an earlier one or closes a recorded cycle |
| RetainCycles.DetectCycles | scripts/objz_check_cycles.py:328-354 | every reported list is a simple cycle, every closed walk takes the last edge of a reported one, and none is reported exactly when no node can reach itself |
| RetainCycles.GetAncestors | scripts/objz_check_cycles.py:299-307 | the list holds exactly the ancestors, also on a cyclic hierarchy |
| RetainCycles.ResolveInheritance | scripts/objz_check_cycles.py:295-316 | each class of the hierarchy gets exactly the fields declared on it or on an ancestor |
| RetainCycles.BuildGraph | scripts/objz_check_cycles.py:319-325 | the graph has exactly the edges that fields give |
| RetainCycles.NormalFormsAgree | scripts/objz_check_cycles.py:366-368 | two loops of distinct classes have the same normal form if and only if one is a rotation of the other |
| RetainCycles.ReportCycles | scripts/objz_check_cycles.py:357-393 | the reports kept are pairwise no rotations, represent every cycle, and the exit code is 1 exactly when there was one |
| RetainCycles.CheckRetainCycles | scripts/objz_check_cycles.py:401-418 | the check fails exactly when some class can reach itself through strong fields declared on it or an ancestor; what it reports are such ways, no two of them rotations, and every such way shares an edge with one of them |
| NoLeaks.LeaksExact | scripts/objz_check_cycles.py:328-354 | if no class can reach itself and every strong field holds nil or an instance of its declared class, giving up all outside references frees a mortal object if and only if no walk along strong fields leads to it from an immortal one; fields of the classes that the analysis leaves out may be there, if their objects refer to nothing |
| NoLeaks.NothingLeaks | scripts/objz_check_cycles.py:328-354 | so it frees every mortal object if immortal objects refer to immortal ones only |
| LeakCheck.CycleMeansLeak | scripts/objz_check_cycles.py:295-354 | for given tables there is a typed heap that keeps a mortal object which neither the outside nor an immortal object reaches if and only if some class can reach itself: the check rejects nothing harmless and passes nothing that leaks |
| MethodTable.HashTable.Compute | src/runtime_legacy/hash.c:103-126 | the slot of a key, with 32-bit wrap-around |
| MethodTable.HashTable.Register | src/runtime_legacy/hash.c:33-63 | adds or replaces the entry of the key in the abstract map, or refuses it exactly when it is new and the table is full; the probe terminates at any load |
| MethodTable.HashTable.Lookup | src/runtime_legacy/hash.c:82-101 | returns the entry of the abstract map; the probe terminates at any load |
| MethodTable.LastRegistrationWins | src/runtime_legacy/hash.c:33-63 | after any registrations, refused ones included, a key is found exactly if one succeeded, with the last successful implementation |
| MethodTable.RegisterAll | src/runtime_legacy/hash.c:33-63 | running any sequence of registrations on the table gives that history's map |
| Probing.Absent | src/runtime_legacy/hash.c:86-101 | a probe that meets an empty slot or comes back to its start proves that the key is not in the table |
| Probing.Inserted | src/runtime_legacy/hash.c:54-63 | writing into the first empty slot of a probe sequence keeps every other key reachable |
| IvarLayout.PlaceIvars | src/runtime_legacy/class.c:46-74 | the loop computes Place |
| IvarLayout.PlacedApart | src/runtime_legacy/class.c:46-74 | ivars lie past the inherited part, in increasing disjoint ranges inside the instance |
| IvarLayout.PlacedAligned | src/runtime_legacy/class.c:52-62 | every ivar whose alignment is a power of two is aligned to it |
| IvarLayout.PlacedTight | src/runtime_legacy/class.c:46-74 | every ivar lies at the first place after what is before it that suits it: the gap is smaller than its alignment and for a power of two contains no aligned place, the mask bits of the offset are clear, and the instance ends where the last ivar does, or at the base |
| ResolutionState.OwnRegistered | src/runtime_legacy/class.c:208-223 | registering a class's lists makes the table hold exactly what has been applied so far |
| ResolutionState.MetaclassLinked | src/runtime_legacy/class.c:264-267 | linking the metaclass keeps the superclass links free of cycles and all finished layouts |
| ResolutionState.IvarsPlaced | src/runtime_legacy/class.c:27-75 | laying out a class whose superclass is final keeps every other layout |
| ResolutionState.CategoryLoaded | src/runtime_legacy/category.c:42-66 | loading the next category adds exactly its methods, to a class that is resolved already |
| ResolutionState.CategoriesWin | src/runtime_legacy/category.c:68-85 | after the load, the implementation found on a resolved class is that of the last category defining the selector, else the class's own last definition |
| ResolutionState.LayoutCorrect | src/runtime_legacy/class.c:27-75 | the ivars of a finished class start at the superclass's final size (after isa alone if immortal, at 0 for a root), do not overlap, are aligned and lie as tight as PlacedTight says, up to the exact instance size |
| ResolutionState.WalkIsDefined | src/runtime_legacy/message.c:31-45 | after the load, what the walk finds from a resolved class depends on the metadata alone |
| ResolutionState.KeysComplete | src/runtime_legacy/class.c:165-203 | when everything is loaded and resolved, the method table has exactly the keys that the metadata give |
| ClassRuntime.Runtime.constructor | src/runtime_legacy/class.c:77-88 | the runtime starts consistent, with nothing resolved |
| ClassRuntime.Runtime.RegisterMethodList | src/runtime_legacy/class.c:165-203 | registers the usable methods of a list in order, last one winning, up to the first that needs a new entry in a full table, at any load |
| ClassRuntime.AllRegistered | src/runtime_legacy/class.c:165-203 | a table with room for every key takes the whole list |
| ClassRuntime.Runtime.RegisterMethods | src/runtime_legacy/class.c:208-238 | registers a class's own methods once and leaves its superclass finished |
| ClassRuntime.Runtime.FindClass | src/runtime_legacy/class.c:143-157 | finds the first class of the table with the name |
| ClassRuntime.Runtime.LookupClass | src/runtime_legacy/class.c:243-277 | finds the class, leaves it, its superclasses and its metaclass finished, and changes nothing that was finished |
| ClassRuntime.Runtime.LinkMetaclass | src/runtime_legacy/class.c:264-267 | the metaclass inherits from the superclass's metaclass |
| ClassRuntime.Runtime.FixupIvarOffsets | src/runtime_legacy/class.c:27-75 | lays out one class and no other |
| ClassRuntime.Runtime.LoadCategory | src/runtime_legacy/category.c:42-66 | resolves the class and loads the category's instance and class methods |
| ClassRuntime.Runtime.LoadCategories | src/runtime_legacy/category.c:68-85 | loads all categories, only the first time, and changes no layout that was computed |
| ClassRuntime.Runtime.WalkLookup | src/runtime_legacy/message.c:31-45 | the loop up the chain computes Walk |
| ClassRuntime.Runtime.MsgLookup | src/runtime_legacy/message.c:93-142 | a message, the first one included, finds exactly what the metadata define for its receiver's class, and changes no layout that was computed |
| ClassRuntime.Runtime.Run | src/runtime_legacy/message.c:93-142 | in any run of class lookups and messages every message finds what the metadata define, and offsets and instance sizes, once computed, stay |
| SelectorMap.HashName | src/runtime_legacy/dispatch.c:55-64 | the loop computes the hash in 32-bit arithmetic |
| SelectorMap.SelMap.Insert | src/runtime_legacy/dispatch.c:66-81 | adds a new name to the abstract map, or leaves a full map as it is |
| SelectorMap.SelMap.ToId | src/runtime_legacy/dispatch.c:83-104 | returns the id of the abstract map, or 65535 |
| SelectorMap.SelCache.ToIdCached | src/runtime_legacy/dispatch.c:123-142 | over any run of lookups the cached translation is the uncached one |
| SelectorMap.SizesFit | scripts/objz_gen_table_sizes.py:282-284 | the generated sizes hold every selector known at build time, and the map has room to spare |
| SelectorIds.NumberKnown | src/runtime_legacy/dispatch.c:163-169 | the known selectors get their positions as ids |
| SelectorIds.NumberFound | src/runtime_legacy/dispatch.c:179-197 | runtime selectors get the next ids as long as there are any |
| SelectorIds.FoundNumbered | src/runtime_legacy/dispatch.c:179-197 | all ids are distinct and below SEL_COUNT, known ids stay, and every selector of the method table has one unless all are taken |
| SelectorIds.FoundExactly | src/runtime_legacy/dispatch.c:163-197 | every selector of the method table gets an id if and only if these and the known ones together are not more than SEL_COUNT |
| SelectorIds.RoomForUnseen | scripts/objz_gen_table_sizes.py:282-284 | with the generated number of bits, the selectors not seen at build time fit if and only if they are not more than the ids left up to the next power of two |
| SelectorIds.NoRoomAtPowers | scripts/objz_gen_table_sizes.py:282-284 | when the number of known selectors is a power of two above one, one unseen selector is one too many |
| FlatDispatch.OrDisjoint | src/runtime_legacy/dispatch.c:153-156 | for an id below SEL_COUNT the bitwise or is an addition, so that rows never overlap |
| FlatDispatch.CopyRow | src/runtime_legacy/dispatch.c:243-248 | copies the parent's row and touches no other |
| FlatDispatch.FillOwn | src/runtime_legacy/dispatch.c:251-263 | overwrites the row with the class's own methods and touches no other |
| FlatDispatch.FillRow | src/runtime_legacy/dispatch.c:228-266 | fills a row exactly if the parent's is filled, and then it answers as the walk from that class |
| FlatDispatch.FillPass | src/runtime_legacy/dispatch.c:225-268 | a pass either fills a row or shows that no class is ready |
| FlatDispatch.NothingStuck | src/runtime_legacy/dispatch.c:225-268 | when no class is ready, every class is filled |
| FlatDispatch.FillRows | src/runtime_legacy/dispatch.c:223-268 | the fixpoint loop terminates with every row filled, whatever the order of the class table |
| FlatDispatch.AssignClassIds | src/runtime_legacy/dispatch.c:199-204 | a class id is the class's position in the table |
| FlatDispatch.Dispatcher.Fill | src/runtime_legacy/dispatch.c:161-268 | after the four phases every row answers for its class, and the table answers what the metadata define if and only if they and the generated table have no more selectors than there are ids |
| FlatDispatch.Dispatcher.Lookup | src/runtime_legacy/dispatch.c:146-157 | the O(1) lookup returns the walk's result for a selector that has an id, and nothing otherwise; when there are ids for all selectors of the metadata it returns what they define |
| FlatDispatch.FlatRefinesWalk | src/runtime_legacy/dispatch.c:146-157 | flat dispatch and the superclass walk agree on every class and selector if and only if the selectors of the metadata and of the generated table are not more than the ids |
| FlatDispatch.FlatIsDefined | src/runtime_legacy/dispatch.c:146-157 | the filled table answers what the metadata define for every class and selector under the same condition, and only then |
| LostSelector.OneTooMany | src/runtime_legacy/dispatch.c:179-197 | metadata and a generated table of two selectors for which the condition fails |
| LostSelector.Run | src/runtime_legacy/dispatch.c:161-268 | a run of that program: the class defines the method and the flat lookup finds none |
| AtomicProperty.SlotAlive | src/runtime_legacy/arc.c:154-159 | the object in a property slot is alive at every moment |
| AtomicProperty.NeverFaults | src/runtime_legacy/arc.c:140-202 | no action of a getter, a setter or the program around them retains or releases a dead object |
| AtomicProperty.StepKeeps | src/runtime_legacy/arc.c:140-202 | every single action keeps all counts equal to slots plus references in flight plus pool entries plus outside references |
| AtomicProperty.EveryRun | src/runtime_legacy/arc.c:140-202 | over every interleaving of any number of threads nothing faults and the counts and the record of displaced values stay right |
| AtomicProperty.EveryRunFromStart | src/runtime_legacy/arc.c:140-202 | so it is for every run of any threads from the start of a program |
| AtomicProperty.Quiescent | src/runtime_legacy/arc.c:190-201 | when no accessor is under way every displaced value has been released exactly once |
| AtomicHistory.Linearizable | src/runtime_legacy/arc.c:140-202 | every run has the calls and returns of a run in which each accessor acts on a plain map in one moment between its call and its return: a getter hands to the pool the value the property has at its moment, a setter sets it and releases the value it replaces, and the slots hold the map |
| AtomicHistory.NoDeadlock | src/runtime_legacy/arc.c:140-202 | unless all threads are idle some accessor can go on, since the lock is never left behind |
| AtomicHistory.AllReturn | src/runtime_legacy/arc.c:140-202 | from every state that can be reached the accessors under way can all return |
| BlockFlags.Parts | src/runtime_legacy/blocks.c:169-189 | a word is its bit 0, its count in bits 1 to 15 and its upper half, and these determine it |
| BlockFlags.AddTwo | src/runtime_legacy/blocks.c:169-176 | adding two counts one reference and changes no other bit, below 32767 references; at the limit the carry does |
| BlockFlags.SubTwo | src/runtime_legacy/blocks.c:220-223 | subtracting two counts one reference less and changes no other bit |
| BlockFlags.HeapWordDecodes | src/runtime_legacy/blocks.c:189 | a heap copy starts with one reference, marked as heap-allocated, its other bits as in the literal |
| Blocks.CopyRight | src/runtime_legacy/blocks.c:151-198 | a copy, by word + 2 or a new heap word, gives its caller one reference; whatever it copies or retains on the way is referenced by the new block |
| BlockCopies.CopyMeans | src/runtime_legacy/blocks.c:151-253 | a copy of a global or heap block is that block; a copy of a literal is a new heap block with the literal's flags that has as many captures, one by one: objects and null the same, captured blocks copied in the same way, null if memory has run out |
| BlockCopies.CopyRetains | src/runtime_legacy/blocks.c:242-248 | a copy retains every object exactly once for each time that a new block captures it |
| BlockCopies.CopyFits | src/runtime_legacy/blocks.c:169-189 | a copy succeeds if the references to heap blocks that it counts, through captured literals too, leave every count within its 15 bits |
| Blocks.ReleaseCounted | src/runtime_legacy/blocks.c:202-233 | a release of a held block, by word - 2, uses nothing freed and restores every count, cascading through captured blocks |
| Blocks.DisposeCounted | src/runtime_legacy/blocks.c:267-286 | the dispose helper gives up each captured reference once |
| Blocks.BlockCount | src/runtime_legacy/blocks.c:220-232 | in the flags word of every heap block bits 1 to 15 are the outstanding references, bit 0 and the upper half are as made, and the block is alive exactly while it has references |
| BlockCopies.RunMemory | src/runtime_legacy/blocks.c:151-233 | over any run no memory is lost: the room left and the live blocks together stay the same |
| Blocks.EveryRun | src/runtime_legacy/blocks.c:151-286 | this holds over any run of literals, copies and releases |
| BlockRuntime.Runtime.BlockCopy | src/runtime_legacy/blocks.c:151-198 | the in-place copy, on the flags words, computes Copy |
| BlockRuntime.Runtime.ObjectAssign | src/runtime_legacy/blocks.c:237-253 | the in-place assign of an object or block computes Assign |
| BlockRuntime.Runtime.BlockRelease | src/runtime_legacy/blocks.c:202-233 | the in-place release, on the flags words, computes Release |
| BlockRuntime.Runtime.DisposeHelper | src/runtime_legacy/blocks.c:267-280 | the in-place dispose of objects and blocks computes Dispose |
| Hierarchy.RepeatsForever | tools/oz_transpile/resolve.py:33-44 | a superclass chain that repeats a name never ends |
| Resolve.Resolver.ValidateHierarchy | tools/oz_transpile/resolve.py:25-44 | reports the missing superclasses, and raises exactly when some superclass chain repeats, which is exactly when the hierarchy is cyclic |
| Resolve.MissingExact | tools/oz_transpile/resolve.py:27-31 | the missing-superclass diagnostics are of exactly the classes whose nonempty superclass is not in the module, each as often as listed, in the order of the list |
| Resolve.Resolver.WalkUp | tools/oz_transpile/resolve.py:35-44 | following a chain terminates, and tells whether it ends or repeats |
| Resolve.Resolver.Assign | tools/oz_transpile/resolve.py:104-115 | numbers a class after its superclass and keeps all ids distinct and consecutive |
| Resolve.Resolver.AssignClassIds | tools/oz_transpile/resolve.py:99-118 | the ids are a bijection onto 0 to n-1 with every superclass below its subclasses, in whatever order the names come |
| Resolve.Resolver.ComputeBaseDepths | tools/oz_transpile/resolve.py:121-137 | every class gets its depth |
| Hierarchy.DepthIsChainLength | tools/oz_transpile/resolve.py:125-134 | a class has exactly as many superclasses as its depth |
| Resolve.Resolver.CollectInitializeClasses | tools/oz_transpile/resolve.py:175-183 | collects the classes that define +initialize, in the order of the list |
| Resolve.InitializeOrder | tools/oz_transpile/resolve.py:175-183 | the list holds exactly those classes, each once, and every ancestor before its descendants |
| Devirtualise.Dispatcher.SelectorClasses | tools/oz_transpile/resolve.py:150-158 | the counted sets are the implementing classes |
| Devirtualise.Dispatcher.ClassifyDispatch | tools/oz_transpile/resolve.py:140-172 | marks exactly the instance methods that Classify says and changes nothing else |
| Devirtualise.StaticMeansUnique | tools/oz_transpile/resolve.py:163-172 | an instance method stays STATIC exactly when no protocol names it, it is not always dynamic, and no other class implements it |
| Devirtualise.FindImplementingClass | tools/oz_transpile/emit.py:382-397 | the loop finds the vtable entry of a class |
| Devirtualise.FindDefiningClass | tools/oz_transpile/emit.py:2325-2346 | the loop finds the class that a direct call names |
| Devirtualise.FindDispatchKind | tools/oz_transpile/emit.py:2359-2364 | the kind is that of the first method with the selector |
| Devirtualise.DirectCallExact | tools/oz_transpile/emit.py:2301-2318 | a direct call on a static class is right for every dynamic class if and only if no class below redefines the selector and no class method hides it on the way up |
| Devirtualise.AllCallsExact | tools/oz_transpile/emit.py:2301-2346 | in every acyclic module the direct calls of a selector are right for every static and dynamic class if and only if below a class that defines it no class has a method of that name, instance or class |
| Devirtualise.DevirtualisationSound | tools/oz_transpile/emit.py:2301-2318 | a message whose deciding method is a STATIC instance method, not introspective and without a class method of the name below it, compiles to the function that dynamic dispatch would find, for every dynamic class |
| Devirtualise.DevirtualisationExact | tools/oz_transpile/emit.py:2301-2364 | if the method that decides the kind is a STATIC instance method, the direct calls are all right if and only if no class method of the name lies below its class and, for an introspection selector, no subclass declares it |
| DispatchWitnesses.ClassMethodMisleads | tools/oz_transpile/emit.py:2359-2364 | a module in which a class method decides the kind: the selector is dynamic, and a direct call goes wrong |
| DispatchWitnesses.ClassMethodCaptures | tools/oz_transpile/emit.py:2325-2346 | a module in which a class method of a subclass captures the direct calls to an inherited method |
| DispatchWitnesses.IntrospectionOverridden | tools/oz_transpile/emit.py:2301-2346 | a module in which only a subclass declares retainCount: the call through the root misses it |
| DispatchWitnesses.InheritedDealloc | tools/oz_transpile/emit.py:2251-2270 | a module with an inherited dealloc: vtable and direct call part |
| DispatchWitnesses.ClassMethodInVtable | tools/oz_transpile/emit.py:349-397 | a module in which a class method of a subclass takes the vtable entry of an inherited method |
| Devirtualise.EntriesExact | tools/oz_transpile/emit.py:349-397 | the vtable entries of a selector are what dynamic dispatch finds, for all classes, if and only if the classes with a method of that name, instance or class, are exactly those whose code defines it; dealloc apart |
| Devirtualise.DeallocCovers | tools/oz_transpile/emit.py:374-397 | the vtable entry of dealloc for a class is at or below every one of its ancestors and itself that has strong ivars, so none is skipped |
| Devirtualise.DirectMatchesVtable | tools/oz_transpile/emit.py:2251-2270 | the compile-time call for the exact receiver class goes where the vtable would exactly if there is an entry; for dealloc, the exact condition |
| AllocCount.EffectiveAllocs | scripts/objz_gen_pools.py:224-241 | terminates on every call graph and counts the call tree cut off at functions already on the path |
| AllocCount.NothingPruned | scripts/objz_gen_pools.py:224-241 | without recursion nothing is cut off |
| AllocCount.CountAllocs | scripts/objz_gen_pools.py:224-241 | without recursion the result is the exact number of allocations in the expanded call tree, multiplicities included |
| MacroSplice.Apply | tools/oz_transpile/emit.py:1711-1715 | back-to-front splicing gives the left-to-right rebuild from exactly the patches that lie within the original text |
| MacroSplice.StepRight | tools/oz_transpile/emit.py:1712-1714 | the range check against the changed buffer decides as one against the original would |
| MacroSplice.NestedExact | tools/oz_transpile/emit.py:1711-1715 | the result of a patch inside another one is that of the outer one alone if and only if its text is as long as what it replaces or, where the shortened buffer makes the outer one be skipped, it makes the same text |
| MacroSplice.OuterFirstExact | tools/oz_transpile/emit.py:1711-1715 | of two patches that start together the shorter one leaves the result alone if and only if it is skipped or replaces a text by itself: why overlapping patches must not occur |

## Left out

- Parsing: source text, syntax trees, templates, files, arguments and logging; the model starts from abstract syntax, classes and graphs.
- ArcMethods.MethodBalanced: not proved for bodies outside the fragment: for-in loops, switch bodies, explicit release messages, shadowed names, names declared again or assigned to after their reference was moved into an ivar, declarations without initialiser or from an ivar, a property or a conditional, reassignment from borrowed values, ivar stores of borrowed calls, self or other ivars, @synchronized on an owning call, returned expressions that use a tracked variable, and moves into an ivar that are conditional or followed by further use. For six of these forms ArcBoundary gives the exact condition and ArcRuns a run that goes wrong.
- ArcBoundary.AssignMovedExact: while the ivar holds the moved value and for calls without other effects; a callee that overwrites the ivar can repair the counts, and so can an earlier one.
- ArcEmitter.Emitter.EmitStatement: for-in, switch, case and default statements, macros passed through as text, and bare expressions with temporaries are not modelled.
- ArcEmission.EmitStmt: a C-style for loop over non-object variables is a While; blocks, bridge casts, `__unsafe_unretained` variables and switch statements are not emitted.
- ArcFaithful.MethodFaithful: source and emitted code read the same choices, and a run that touches freed memory is not compared. A name is one variable in the whole method, so a declaration that shadows another is an assignment on both sides (ArcScoping shows that without shadowing this is C's block scope); what the environment's calls compute is not modelled.
- ArcMachine.Exec: a callee acts on the heap through references that are not the method's own, and leaves the receiver one; the +1 convention of callees that return a local is not modelled. The lock of a @synchronized block is always allocated.
- ObjectHeap.EmitDealloc: bodies of user-written dealloc methods and the special deallocs of the collection classes are not modelled.
- ObjectHeap.Release: the 32-bit count does not overflow.
- NoLeaks.LeaksExact: subclass instances and `id` values in strong fields are excluded, and so are collections that hold objects; the class graph has edges to declared classes only. LeakCheck takes superclass chains to end.
- ClassRuntime.Runtime.RegisterMethods: from here on the method table has room for every method; RegisterMethodList and MethodTable cover refused registrations.
- ClassRuntime.Runtime.MsgLookup: nil receivers, the sending of +initialize and modules loaded after the first message are not modelled. The metaclass of a root class is taken to inherit from nothing or from its own class.
- IvarLayout.PlacedAligned: an ivar smaller than a pointer whose size is not a power of two is placed as the code places it, without an alignment claim.
- MethodTable.HashTable.Compute: characters are taken as they are; the sign of `char` is not modelled.
- FlatDispatch.Dispatcher.Fill: like MsgLookup it takes the metaclass of a root class to inherit from nothing or from its own class; the generated selector table has distinct names and at most SEL_COUNT of them, at most 65535; the class table has no duplicates.
- AtomicProperty.Proceed: non-atomic properties, weak references and the return-value handshake are not modelled; an autorelease pool is always there, the owner of a property outlives its accessors, and a caller keeps a setter's argument referenced until the setter has retained it. What a dying object's own ivars hold, `objc_storeStrong` and the `.cxx_destruct` walk are not modelled here.
- Blocks.Copy: `__block` variables are not modelled, and captured variables of other kinds hold no reference; a count that would exceed 32767 stops the run instead of corrupting the flags.
- BlockRuntime.Runtime.ObjectAssign: the branch for `__block` variables is not modelled, nor is it in BlockRuntime.Runtime.DisposeHelper.
- Resolve.Resolver.ValidateHierarchy: property synthesis, duplicate methods, protocol conformance and generic types are not modelled; a diagnostic is the class's name.
- Devirtualise.Dispatcher.ClassifyDispatch: inline accessors and the inference of receiver types are not modelled; the static class of a receiver is given. The root class is taken to have no superclass.
- AllocCount.CountAllocs: the sum over thread entry points and the block sizes are not modelled.
- MacroSplice.Apply: collecting the patches is not modelled; they come sorted and disjoint.
