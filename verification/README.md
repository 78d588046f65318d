# A verified model of the Lua table serializer and of the Lua it rests on

The repository packs Lua tables into a binary format (`src/`) on top of a vendored
Lua 5.1.5 (`lua-5.1.5/`). This project models, in Dafny, the serializer and the parts
of that Lua whose correctness is least obvious, and proves what they are for.

| cluster | files | main results |
|---|---|---|
| incremental collector, open upvalues, string table | `Gc*.dfy`, `Collector.dfy` | `Collector.GlobalState.Run`, `FullGC`, `Close` |
| tables: array part, chained scatter hash, rehash, traversal, border | `Table*.dfy`, `LuaTable.dfy` | `LuaTable.Table.Run`, `NewKey`, `Traverse`, `GetN`, `TableSizes.ComputeSizes` |
| binary codec, key order, sort | `Bytes`, `Numbers`, `Floats`, `LuaValue`, `Losses`, `Format`, `FormatLaws`, `RoundTrip`, `Storable`, `Canonical`, `Writer`, `WriteValue`, `Reader`, `Codec`, `Quicksort`, `KeyOrder` | `Codec.StoreAndLoad`, `Reader.ParseBinaryTable`, `RoundTrip.RoundTripIff`, `Canonical.CanonicalFile`, `Quicksort.AuxSort` |
| code generation for expressions | `Bytecode.dfy`, `JumpLists.dfy`, `Code*.dfy` | `CodeGen.FuncState.CompileInto` |
| pattern matching | `Pattern.dfy`, `Derivation.dfy`, `Matcher.dfy`, `Syntax.dfy`, `Meaning.dfy`, `Preferred.dfy`, `PlainFind.dfy` | `Matcher.MatchState.DoMatch`, `Matcher.Find`, `Preferred.FindMeans`, `PlainFind.PlainAgrees` |

`dafny verify dfyconfig.toml` checks everything.

## How it is built

Code that changes state in the original is a class whose methods change fields, or
a method with a loop; what it must establish is a predicate or function on values,
and most of the reasoning is in lemmas about those. Methods hide definitions they do
not need (`hide`), and call small lemmas, some with an empty body, that open just one.

A method that meets a definition is worth what the definition is worth, so the
definitions have laws of their own that do not follow their text: what one operation
of a program reads after another wrote it (`GcLaws`), what a double's bits mean
(`Floats`), shortest forms, whole files and the order of keys (`FormatLaws`), laws of
the operators and short listings with their results (`CodeLaws`), and the match of a
pattern given as data, found by recursion on its pieces (`Preferred`).

* **Collector.** `GlobalState` holds the heap as a map from ids to objects and the
  colours as a second map, so that marking changes one and stores change the other.
  The invariant `GcState.Inv` has a structural part and one part per phase. A
  program operation takes its operands from the running thread's stack; where the
  machine keeps values in closures and frames, the model keeps them on that stack.
  `gray` and `grayagain` are disjoint lists. The sweep cursor is split by kind of
  list. A dead thread's upvalues are closed before the thread is unlinked, where the
  original unlinks first; the result is the same. `GcProgram` says what each operation
  of the program does to the heap.
* **Tables.** Keys hash through an arbitrary function, node links are indices. Chains
  are acyclic by a ghost rank, a real number, so that a node can always be put between
  two others. `Set`, `NewKey`, `Rehash` and `Resize` call each other as in the
  original; their termination measure is the proof that a rehash never leads to a
  second one. `TableValue` ties a table's traversal and length to what the codec
  assumes of a table.
* **Codec.** `LuaValue.Value` is plain contents, `LValue` a value as it lies in live
  tables, with a traversal order and the border that `#t` reports. `Format` says what
  bytes a value is written as, and what any bytes are read as; the writer and reader
  classes are proved against it. Numbers are integers, or doubles that are no integer,
  compared as integers scaled by 2^1074. What the reader pushes is a double: a float is
  widened (`Floats.Widen`), and an eight-byte integer is rounded (`Numbers.ToDouble`),
  which changes only some integers beyond 2^53, none that the writer writes. Tables that
  writer and reader make for themselves may overflow: `Storable` says when a value can
  be written, `LuaValue.Loadable` when what was written can be read, and `TableLimits`
  derives the limits from the table model. Size fields become an `int`: a `T_ARRAY32`
  size or a pool count from 2^31 on is negative there and always raises, as does a
  `T_TABLE32` size beyond 2^26.
* **Code generation.** While an expression is compiled some jumps are open. `Bytecode`
  executes code with open jumps; `Compose` relates a run of patched, longer code to
  the shorter code it came from. A `View` is code with its pending jumps and its two
  lists, `Delivers` says what value it delivers, and every generator step is a lemma
  from `Delivers` to `Delivers`. An `Intent` may also be an error, so errors are
  preserved as well as values.
* **Patterns.** A pattern has no alternatives, so a derivation is determined by how
  often each repeatable item is repeated; `Derives` and `Precedes` say which
  derivations there are and which comes first, without reference to the search.
  `Syntax` and `Meaning` say how pieces of a pattern, given as data, are written;
  `Preferred` says what they match, and that the search finds it.
  Tail calls that the original writes as jumps are calls.
* **Sort.** `Quicksort.Elements` keeps a record of the positions looked at or stored
  into, so that the methods can promise to stay inside their range.

## Where code and comments differ

* The writer emits table forms that the reader cannot take: a table of more than 2^26
  entries that is no array is written, but reading it raises "table overflow"
  (`RoundTrip.RoundTripIff`, `Storable.MixedTrip`).
* The comment over `ltable.c` says that at least half the slots of the array part are
  in use; `computesizes` asks for more than half, and so does `TableSizes.Optimal`.
* The writer takes a table for an array when its size equals its border. With holes in
  the integer keys that can lose entries: `Losses.ArrayFormLoses` is such a table, and
  `RoundTrip.RoundTripIff` says exactly when it happens.
* `sortCmp` returns a count to C code that reads it as a truth value;
  `KeyOrder.SortCmpIsOrder` shows that this is sound there, and
  `KeyOrder.FalseHidesOrder` says for which keys it is not.
* A table overflow is raised after the array part has grown and before the hash part
  is replaced; `LuaTable.Table.Resize` states that state, for which no invariant is
  claimed.
* The message for a bad magic number uses a conversion that `lua_pushfstring` does not
  have; the model keeps the text literally.

## Model

| member | source | states |
|---|---|---|
| Collector.GlobalState.Run | lua-5.1.5/src/lgc.c:556-607 | safety over whole runs: for any script of program operations and collector steps, every state of the run satisfies the invariant, every object reachable from the roots exists in it, each operation of the program has exactly the effect it should, and a collector step leaves all that is reachable as it was |
| GcState.ReachableIsLive | lua-5.1.5/src/lgc.c:407-428 | in every state of the invariant a reachable object exists and is not of the dying white, so the sweep cannot free it |
| GcState.TriColour | lua-5.1.5/src/lgc.c:277-320 | in the mark phase no black object refers to a white one, and a gray object that is no string or open upvalue is on exactly one of gray and grayagain |
| Collector.GlobalState.FullGC | lua-5.1.5/src/lgc.c:635-658 | from any state a full collection ends in Pause with exactly the objects that were reachable, and the fixed ones, all white |
| Collector.GlobalState.FinishCycle | lua-5.1.5/src/lgc.c:635-652 | abandoning a mark phase frees nothing at all; finishing a sweep changes nothing reachable; either way everything ends of the current white |
| Collector.GlobalState.RunCycle | lua-5.1.5/src/lgc.c:653-656 | an uninterrupted cycle starts from the roots and ends in Pause, with the invariant, having kept what it started with |
| Collector.GlobalState.SingleStep | lua-5.1.5/src/lgc.c:556-607 | each step of the state machine keeps the invariant, leaves the reachable part of the heap and the roots as they were, stays inside any closed set of marks, and comes nearer to the end of the cycle |
| Collector.GlobalState.Execute | lua-5.1.5/src/lgc.h:86-97 | every program operation with its barrier keeps the invariant, in every phase, and does to heap and roots what the operation says and nothing else; a collector step hides nothing from the program |
| GcProgram.EffectFrame | lua-5.1.5/src/lgc.h:86-97 | an operation of the program frees nothing live and changes only the objects it names |
| GcLaws.SetThenGet | lua-5.1.5/src/lvm.c:134-148 | what a program stores in a field is what it reads from it next |
| GcLaws.SetThenGetOther | lua-5.1.5/src/lvm.c:134-148 | the other fields, and the fields of other objects, read as before |
| GcLaws.NewThenGet | lua-5.1.5/src/lgc.c:685-691 | a new object has, field by field, the values it was made from |
| GcLaws.SetThrough | lua-5.1.5/src/lvm.c:451-456 | a store through an open upvalue reaches the slot that it reads, and no other |
| GcLaws.CaptureThenGet | lua-5.1.5/src/lfunc.c:53-79 | a captured slot is read through its upvalue |
| GcLaws.CaptureTwice | lua-5.1.5/src/lfunc.c:53-79 | two captures of a slot share one upvalue |
| GcLaws.CloseThenGet | lua-5.1.5/src/lfunc.c:96-112 | an upvalue reads the same before and after it is closed |
| GcLaws.NewThenResume | lua-5.1.5/src/lstate.c:119-131 | a new thread starts with the globals of the one that made it, and nothing else |
| GcLaws.InternTwice | lua-5.1.5/src/lstring.c:75-93 | interning a string again pushes the same object |
| GcLaws.RootsReached | lua-5.1.5/src/lgc.c:493-512 | main thread, running thread, registry and type metatables are reachable |
| GcLaws.FieldsReached | lua-5.1.5/src/lgc.c:277-320 | so is what a reachable object refers to: by a field, on a stack, or through an open upvalue |
| GcCycle.CycleDone | lua-5.1.5/src/lgc.c:407-428 | once a cycle that began between two cycles is over, what is left is what was reachable at its start, and the fixed objects |
| GcCycle.CycleStep | lua-5.1.5/src/lgc.c:556-607 | one more step inside a cycle keeps what the cycle promises |
| GcCycle.SameWorldReach | lua-5.1.5/src/lgc.c:407-428 | if the reachable part of the heap is untouched, the reachable set is the same |
| GcCycle.StepKeepsWorld | lua-5.1.5/src/lgc.c:407-428 | a step that only frees objects of the dying white changes nothing reachable |
| GcCycle.Abandon | lua-5.1.5/src/lgc.c:637-646 | entering the sweep from a mark phase, without the flip, gives a state in which nothing is dead |
| GcMark.Flip | lua-5.1.5/src/lgc.c:543-552 | after the atomic phase the change of white leaves nothing reachable in the dying white, and the sweep invariant holds |
| Collector.GlobalState.ReallyMark | lua-5.1.5/src/lgc.c:69-112 | marking a white object makes it gray on the gray list, or black if it has nothing to traverse, and marks no more than that asks for |
| Collector.GlobalState.PropagateMark | lua-5.1.5/src/lgc.c:277-320 | traversing a gray object leaves it black with no white child (a thread goes to grayagain), and the marks stay in any closed set that holds them |
| Collector.GlobalState.PropagateAll | lua-5.1.5/src/lgc.c:323-327 | propagation empties the gray list |
| Collector.GlobalState.MarkRoot | lua-5.1.5/src/lgc.c:493-512 | a cycle begins with the roots marked, the lists reset and the tri-colour invariant in force |
| Collector.GlobalState.RemarkUpvals | lua-5.1.5/src/lgc.c:515-522 | the values of gray open upvalues are marked |
| Collector.GlobalState.AtomicMark | lua-5.1.5/src/lgc.c:525-541 | remarking upvalues, running thread, type metatables and grayagain leaves no gray object to traverse and no white one reachable |
| Collector.GlobalState.Atomic | lua-5.1.5/src/lgc.c:525-553 | the atomic phase ends in the string sweep with the whites exchanged, and everything reachable carries the old or new live colour |
| Collector.GlobalState.SweepBucket | lua-5.1.5/src/lgc.c:572-580 | one string bucket is freed of the dying white, and what survives is of the current white |
| Collector.GlobalState.SweepOpen | lua-5.1.5/src/lgc.c:407-428 | sweeping a thread's open upvalues before its fate is decided keeps the survivors and their order |
| Collector.GlobalState.SweepOne | lua-5.1.5/src/lgc.c:378-404 | one object of the root list survives whitened or is freed with what only it owns |
| Collector.GlobalState.SweepRoots | lua-5.1.5/src/lgc.c:581-591 | sweeping a stretch of the root list keeps the invariant, frees only the dying white, and at its end checks the string table and reaches Finalize |
| Collector.GlobalState.CheckSizes | lua-5.1.5/src/lgc.c:431-437 | a string table that is used to less than a quarter is halved, and the invariant holds |
| GcSweep.SweepDone | lua-5.1.5/src/lgc.c:581-591 | at the end of the sweep every object is of the current white |
| Collector.GlobalState.BarrierForward | lua-5.1.5/src/lgc.c:661-671 | the forward barrier marks the white value in the mark phase, and otherwise whitens the black owner, and the invariant holds again without exception |
| Collector.GlobalState.BarrierBack | lua-5.1.5/src/lgc.c:674-682 | the back barrier turns a black table gray again, on grayagain |
| GcSweep.BarrierBackOk | lua-5.1.5/src/lgc.c:674-682 | the state after the back barrier satisfies the mark-phase invariant with no object exempt |
| GcSweep.BarrierWhiteOk | lua-5.1.5/src/lgc.c:667-671 | whitening the owner in a sweep phase keeps the sweep invariant |
| GcState.NoBarrier | lua-5.1.5/src/lgc.h:86-97 | a store whose value is not white, or whose owner is not black, needs no barrier |
| GcSweep.StoreStack | lua-5.1.5/src/lgc.c:256-274 | stores into a stack need no barrier, because threads stay gray to the atomic phase |
| GcSweep.StoreSlot | lua-5.1.5/src/lgc.c:515-522 | a store through the stack is seen by every open upvalue over that slot |
| Collector.GlobalState.SetField | lua-5.1.5/src/lgc.h:86-97 | a store into an object, with its barrier, changes that field only and keeps the invariant |
| Collector.GlobalState.Link | lua-5.1.5/src/lgc.c:685-691 | a new object carries the current white and is linked in front; the invariant holds in every phase |
| GcMutate.Allocate | lua-5.1.5/src/lgc.c:685-691 | an object allocated in any phase, of the current white, keeps the invariant |
| Collector.GlobalState.NewString | lua-5.1.5/src/lstring.c:50-72 | a new string goes to its bucket, of the current white, and a table that is too crowded doubles |
| Collector.GlobalState.FindString | lua-5.1.5/src/lstring.c:75-93 | a string found in its bucket that was dead is brought back to the current white, and is live then |
| GcMutate.Resurrect | lua-5.1.5/src/lstring.c:85-90 | bringing back a dead string in the middle of a string sweep keeps the invariant |
| GcMutate.InternNew | lua-5.1.5/src/lstring.c:50-72 | a new string in any phase keeps the invariant |
| Collector.GlobalState.ResizeStrings | lua-5.1.5/src/lstring.c:22-47 | rehashing the string table keeps every string, once, and the invariant; it is skipped while strings are swept |
| Collector.GlobalState.FindUpval | lua-5.1.5/src/lfunc.c:53-79 | capturing a slot finds the one open upvalue over it or inserts a new one, and the list stays strictly descending |
| GcMutate.CaptureNew | lua-5.1.5/src/lfunc.c:67-79 | an upvalue inserted at its place keeps the list strictly descending with one upvalue per slot, and the collector's invariant |
| Collector.GlobalState.Close | lua-5.1.5/src/lfunc.c:96-112 | exactly the open upvalues at or above the level are closed, those below stay, and whatever was read through an upvalue before is read after |
| Collector.GlobalState.CloseHead | lua-5.1.5/src/lfunc.c:106-110 | the head of the list, if it is not dead, gets its own copy of the value and joins the collector's root list |
| Collector.GlobalState.FreeHead | lua-5.1.5/src/lfunc.c:103-104 | a dead upvalue at the head is freed |
| GcMutate.CloseLive | lua-5.1.5/src/lgc.c:694-711 | an upvalue that is closed while gray is painted or greyed as its phase asks, and the invariant holds |
| GcMutate.CloseDead | lua-5.1.5/src/lfunc.c:103-104 | freeing a dead open upvalue keeps the invariant |
| Collector.GlobalState.constructor | lua-5.1.5/src/lstate.c:143-189 | a new state satisfies the invariant |
| LuaTable.Table.Run | lua-5.1.5/src/ltable.c:469-505 | any sequence of assignments, collections and array extensions leaves the table equal to the plain finite map they build; only a nil or NaN key stops it, which changes nothing, or a table that with its best array part would leave more than 2^26 keys to the hash part |
| LuaTable.Table.Get | lua-5.1.5/src/ltable.c:469-489 | the place found holds the value that the finite map has for the key; there is no place exactly if the table never had the key since the last rehash |
| LuaTable.Table.GetNum | lua-5.1.5/src/ltable.c:435-449 | the same for integer keys, array part first |
| LuaTable.Table.Set | lua-5.1.5/src/ltable.c:492-505 | the place of a key, made if need be, in an unchanged map; a key that fits costs no rehash and at most one unused node |
| LuaTable.Table.NewKey | lua-5.1.5/src/ltable.c:382-429 | a place for a new key with chains, homes and the map intact; its recursion through rehash back to set is bounded by a measure of two levels, so a rehash never leads to a second one |
| LuaTable.Table.MakeWay | lua-5.1.5/src/ltable.c:409-425 | the two ways to resolve a collision keep the chain invariant, add one key and use one node |
| LuaTable.Table.FindPrevious | lua-5.1.5/src/ltable.c:412-412 | the walk from the guest's main position reaches its predecessor |
| LuaTable.Table.GetFreePos | lua-5.1.5/src/ltable.c:382-388 | the next node below the cursor that was never used; none exactly when the hash part is full or the dummy |
| LuaTable.Table.Write | lua-5.1.5/src/ltable.c:311-320 | a value stored through a place changes that key of the map and nothing else |
| LuaTable.Table.Resize | lua-5.1.5/src/ltable.c:297-324 | both parts are resized and the map is the same; with enough nodes for the keys outside the array part no re-insertion needs a rehash, and it fails only beyond 2^26 nodes |
| LuaTable.Table.Rehash | lua-5.1.5/src/ltable.c:333-349 | the array part gets the best size there is for the integer keys, the extra one included, and the hash part the nodes that the other keys need; the map is preserved, and afterwards the extra key fits; it fails only if more than 2^26 keys would be left to the hash part |
| TableValue.PowersOfTwo | lua-5.1.5/src/ltable.c:333-349 | a new table to which the keys 1, 2, 4 and 8 are assigned in turn ends with an array part of 4 slots, and its length is 4 |
| LuaTable.Table.ResizeArray | lua-5.1.5/src/ltable.c:327-330 | the array part gets the size asked for and the map is the same |
| LuaTable.Table.SetNodeVector | lua-5.1.5/src/ltable.c:272-294 | at least the nodes asked for, a power of two, all unused; 0 gives the dummy; failure exactly beyond 2^26 |
| LuaTable.Table.RawSet | lua-5.1.5/src/lapi.c:671-681 | assignment: the key maps to the value, or is gone for nil; the errors for nil and NaN keys change nothing |
| LuaTable.Table.SearchChain | lua-5.1.5/src/ltable.c:440-447 | the walk along a chain ends, and finds the key if any node has it |
| LuaTable.Table.ClearEmpty | lua-5.1.5/src/lgc.c:62-67 | keys without a value die, and neither the map nor any chain changes |
| LuaTable.Table.FindIndex | lua-5.1.5/src/ltable.c:137-159 | the traversal index of a key, dead or alive: the first node on its chain that holds it; an error exactly if no node does |
| LuaTable.Table.Next | lua-5.1.5/src/ltable.c:162-179 | the entry with the next index that has a value |
| LuaTable.Table.Traverse | lua-5.1.5/src/ltable.c:162-179 | a traversal from nil visits every entry once, in index order, even if visited keys are cleared and die on the way |
| LuaTable.Table.GetN | lua-5.1.5/src/ltable.c:560-576 | the length is a border, by binary search in the array part or a search in the hash part |
| LuaTable.Table.UnboundSearch | lua-5.1.5/src/ltable.c:532-553 | doubling and bisection from a present index end at a border within int |
| LuaTable.Table.LinearSearch | lua-5.1.5/src/ltable.c:541-545 | the linear fallback ends, because no table has more keys than slots |
| LuaTable.Table.constructor | lua-5.1.5/src/ltable.c:358-371 | a new table is empty and valid |
| TableChain.HomeTaken | lua-5.1.5/src/ltable.c:400-401 | a key put on a valueless node that is its main position, links left as they are, keeps chains acyclic, in-degree at most one, all keys reachable and homes at home |
| TableChain.FreeTaken | lua-5.1.5/src/ltable.c:418-425 | a new node linked behind a key that is at home keeps the chain invariant |
| TableChain.Evicted | lua-5.1.5/src/ltable.c:410-417 | moving a guest to a free node keeps the chain invariant (the two nodes change places in every chain) |
| TableChain.ChainRises | lua-5.1.5/src/ltable.c:399-429 | no chain comes back to where it was |
| TableMap.MapKeys | lua-5.1.5/src/ltable.c:469-489 | the keys of the map are those of the array part and of the hash part, which are disjoint |
| TableMap.MovedSameMap | lua-5.1.5/src/ltable.c:399-429 | moving keys with their values between nodes leaves the map as it is |
| TableSizes.ComputeSizes | lua-5.1.5/src/ltable.c:189-208 | the size is 0 or the largest power of two n with more than n/2 of the keys 1..n in use, and na is the number of those, despite both early exits |
| TableSizes.OptimalUnique | lua-5.1.5/src/ltable.c:189-208 | at most one size is optimal |
| TableSizes.Log2 | lua-5.1.5/src/lobject.c:54-69 | floor of the binary logarithm, and -1 for 0 |
| TableSizes.CeilLog2 | lua-5.1.5/src/lobject.h:367-367 | the exponent e with 2^(e-1) < x <= 2^e |
| TableCount.NumUseArray | lua-5.1.5/src/ltable.c:222-244 | the elements in use, each counted in its slice (2^(e-1), 2^e] |
| TableCount.NumUseHash | lua-5.1.5/src/ltable.c:247-260 | the nodes in use, and those that are candidates for the array part, counted in their slices |
| TableCount.CountInt | lua-5.1.5/src/ltable.c:211-219 | one more candidate, counted in its slice, exactly if the key is an index up to 2^26 |
| TableCount.CountKeys | lua-5.1.5/src/ltable.c:333-344 | the totals that rehash passes on are the sizes of the sets of all keys and of all index keys, the extra one included |
| TableState.PlacedHome | lua-5.1.5/src/ltable.c:400-428 | placing a key at home keeps the whole table invariant and the map |
| TableState.PlacedFree | lua-5.1.5/src/ltable.c:418-428 | placing a key on a free node keeps the whole table invariant and the map |
| TableState.PlacedEvicting | lua-5.1.5/src/ltable.c:410-428 | evicting a guest keeps the whole table invariant and the map |
| TableTraverse.EntriesMap | lua-5.1.5/src/ltable.c:162-179 | the entries in traversal order have distinct keys, are those of the map, and are as many |
| TableTraverse.StillFound | lua-5.1.5/src/ltable.c:137-159 | a key that was live where it was visited is found there even if it died since and an older dead key is the same pointer |
| TableTraverse.PassedIndices | lua-5.1.5/src/ltable.c:541-545 | n present indices 1..n mean at least n keys |
| TableValue.TableIsLTable | src/lua_binary_writer.cpp:237-248 | a traversal and the length operator yield what the codec assumes: distinct keys, as many as the map has, and a border among them |
| TableValue.CountIsLength | src/lua_binary_writer.cpp:327-345 | with no holes in the positive integer keys, the writer's count equals the length exactly if the keys are 1..n |
| Codec.StoreAndLoad | src/lua_binary_writer.cpp:448-484 | a value of supported types is written exactly if its strings and key lists fit the tables the writer keeps; what is written is read back exactly if no table in table form has more than 2^26 entries; and it has the contents it had exactly if besides every table taken for an array has exactly the keys 1..n |
| RoundTrip.RoundTripIff | src/lua_binary_reader.cpp:236-271 | for the bytes of any value that can be written, followed by any suffix: the parse succeeds exactly if no table in table form is too large, raises otherwise, and is exact if and only if the value is also lossless |
| RoundTrip.FileTrip | src/lua_binary_reader.cpp:236-271 | parsing written bytes followed by any suffix gives the lossy image of the value, and consumes exactly its bytes; or raises, exactly if a table form has more than 2^26 entries |
| RoundTrip.ValueTrip | src/lua_binary_reader.cpp:224-233 | a value written while the pool was still growing is read back under the final pool, from its own bytes only; or raises, exactly if it is not loadable |
| RoundTrip.ValueGrows | src/lua_binary_writer.cpp:93-120 | writing a value only extends the pool, so indices given out before stay valid, and never beyond 2^26 strings |
| Storable.StorableIff | src/lua_binary_writer.cpp:448-484 | a value of supported types can be written exactly if it has at most 2^26 strings that are written and no table form of more than 2^27 entries; otherwise writing raises |
| Storable.ValuePooled | src/lua_binary_writer.cpp:93-120 | written from any pool, a value adds exactly its strings to it, each once, or there are too many |
| Storable.MixedTrip | src/lua_binary_reader.cpp:181-198 | a table with the keys 1..n and a string comes back for n below 2^26; from there on it is written, but reading it raises |
| TableLimits.IndexStrings | src/lua_binary_writer.cpp:93-120 | the table of string indices takes 2^26 strings and overflows at the next |
| TableLimits.MakeList | src/lua_binary_writer.cpp:289-302 | a list that grows one by one takes 2^27 elements and overflows at the next |
| TableLimits.FillPresized | src/lua_binary_reader.cpp:181-198 | assignments to a table made for as many of them never overflow, whatever the keys |
| Losses.LossyIffNot | src/lua_binary_writer.cpp:320-378 | what comes back equals what was written if and only if every table taken for an array, at every level, is one |
| Losses.ArrayDetection | src/lua_binary_writer.cpp:327-345 | with no holes in the positive integer keys the count equals the border exactly if the key set is 1..n |
| Losses.ArrayFormLoses | src/lua_binary_writer.cpp:339-345 | a table with keys 1, 2, 4 and "x" and border 4 is taken for an array, and loses "x" |
| Canonical.CanonicalFile | src/lua_binary_writer.cpp:250-318 | for values whose positive integer keys have no holes the bytes depend on the contents only, not on layout or insertion order |
| Canonical.BorderUnique | src/lua_binary_writer.cpp:327-338 | with no holes there is only one border |
| Canonical.NoHolesLossless | src/lua_binary_writer.cpp:339-345 | without holes the array form loses nothing |
| KeyOrder.SortCmpIsOrder | src/lua_binary_writer.cpp:250-287 | the comparator, whose returned count acts as its result, is true exactly if the first key is less |
| KeyOrder.FalseHidesOrder | src/lua_binary_writer.cpp:250-287 | on all keys the result that `table.sort` sees is the count that `sortCmp` returns, except exactly for a negative number before the key false |
| KeyOrder.FalseUnordered | src/lua_binary_writer.cpp:270-287 | -1 and false are such a pair: the comparison orders them neither way |
| KeyOrder.KeyOrderTotal | src/lua_binary_writer.cpp:250-287 | the key order is total on distinct number and string keys |
| FormatLaws.NumbersFirst | src/lua_binary_writer.cpp:250-287 | integer keys are in their order, before all strings |
| FormatLaws.StringsByBytes | src/lua_binary_writer.cpp:250-287 | string keys are ordered by the first byte that differs, and a prefix comes first |
| FormatLaws.SortedMeans | src/lua_binary_writer.cpp:289-318 | in the sorted keys only strings follow a string, and only numbers precede a number, each in its own order |
| KeyOrder.SortCmpStrictWeak | src/lua_binary_writer.cpp:250-287 | the comparator is a strict weak order on number and string keys, as the sort requires |
| KeyOrder.LStrCmp | lua-5.1.5/src/lvm.c:203-222 | comparison chunk by chunk past zero bytes is lexicographic on whole strings, given a bytewise strcoll |
| KeyOrder.AscendingUnique | src/lua_binary_writer.cpp:289-318 | a set of keys has one ascending list |
| Numbers.ValueInjective | lua-5.1.5/src/lvm.c:225-236 | numbers that compare equal are the same, so the order on numbers is total |
| Quicksort.AuxSort | lua-5.1.5/src/ltablib.c:193-254 | for any strict weak order the range ends up sorted, a rearrangement of itself, with no position outside it read or written, and the recursion is at most log2(n+1) deep |
| Quicksort.Sort | lua-5.1.5/src/ltablib.c:256-264 | the whole array ends up a sorted permutation of itself |
| Quicksort.Partition | lua-5.1.5/src/ltablib.c:218-244 | the pivot ends at a place that splits the range |
| Quicksort.Split | lua-5.1.5/src/ltablib.c:224-241 | the two scans meet with no larger element before the meeting point and no smaller one behind it |
| Quicksort.ScanUp | lua-5.1.5/src/ltablib.c:225-229 | the upward scan stops inside the range, at an element not below the pivot, and never raises "invalid order function" |
| Quicksort.ScanDown | lua-5.1.5/src/ltablib.c:230-234 | the downward scan stops inside the range, at an element not above the pivot, and never raises |
| Quicksort.SortThree | lua-5.1.5/src/ltablib.c:196-217 | first, middle and last element are put in order |
| Writer.BinaryWriter.Ensure | src/lua_binary_writer.cpp:55-63 | room for more bytes, contents kept; all copying so far is less than twice what was written |
| Writer.BinaryWriter.Reserve | src/lua_binary_writer.cpp:35-53 | a larger buffer with the same contents |
| Writer.BinaryWriter.WriteBytes | src/lua_binary_writer.h:47-52 | the bytes are appended to the contents, and growth stays paid for |
| Writer.BinaryWriter.WriteIndent | src/lua_binary_writer.h:64-74 | n tab characters are appended, none for negative n |
| Writer.WriteInTurn | src/lua_binary_writer.cpp:35-63 | after any sequence of writes a fresh writer holds all that was written, in order, and reallocations have copied at most twice as much |
| Writer.StringTable.StoreString | src/lua_binary_writer.cpp:93-120 | the index of a string in a pool that grows by each new string; equal strings share an index; an error exactly for a new string after 2^26 |
| Writer.StringTable.Write | src/lua_binary_writer.cpp:122-135 | the pool in order of first use, behind its size |
| WriteValue.WriteInteger | src/lua_binary_writer.cpp:150-206 | an integer in the shortest form that holds it |
| WriteValue.WriteLength | src/lua_binary_writer.cpp:214-235 | a length in the shortest form |
| FormatLaws.ShortestInt | src/lua_binary_writer.cpp:150-206 | no other bytes with an integer tag that are read as the same integer are fewer |
| FormatLaws.ShortestLength | src/lua_binary_writer.cpp:214-235 | the tag tells how many bytes the length takes, they are the length, and no fewer would hold it |
| FormatLaws.NumberBytes | src/lua_binary_writer.cpp:150-206 | an integer but 0 and 1 is a tag and its two's complement, the low byte first |
| FormatLaws.TextFile | src/lua_binary_writer.cpp:448-484 | the file of a two-byte string, byte for byte |
| FormatLaws.ArrayBytes | src/lua_binary_writer.cpp:320-378 | the bytes of a table with one element |
| FormatLaws.PairBytes | src/lua_binary_writer.cpp:320-378 | the bytes of a table with one pair |
| TableValue.CountTableLength | src/lua_binary_writer.cpp:237-248 | a loop over `next` from nil counts exactly the keys of the table |
| WriteValue.GetSortedTableKeys | src/lua_binary_writer.cpp:289-318 | the keys of a table, all of them and once each, ascending; an error exactly beyond 2^27 keys |
| WriteValue.WriteTable | src/lua_binary_writer.cpp:320-378 | array form if the count equals the border, table form with sorted keys otherwise; success exactly if all values are supported |
| WriteValue.WriteAny | src/lua_binary_writer.cpp:380-446 | appends exactly the encoding of a value and grows the pool as that asks, fails exactly on an unsupported type, or raises exactly on overflow, whichever comes first |
| WriteValue.WriteBinaryTable | src/lua_binary_writer.cpp:448-484 | header, complete pool and body, the body written first to a stream of its own; both streams together copy at most four times the file |
| Reader.BinaryReader.ReadRaw | src/lua_binary_reader.h:27-51 | bytes at the cursor, zeros past the end; the cursor moves in any case |
| Reader.BinaryReader.ReadNumber | src/lua_binary_reader.h:27-51 | the number at the cursor |
| Reader.BinaryReader.ReadBytes | src/lua_binary_reader.h:53-66 | the bytes asked for, or none and the cursor at the end |
| Reader.StringTable.Parse | src/lua_binary_reader.cpp:49-73 | the pool as it was written, failure on an empty or truncated string, or an error for a size from 2^31 on; and how many strings were built in any case |
| Reader.StringTable.GetString | src/lua_binary_reader.cpp:39-47 | the string at an index, nil for index 0, failure beyond the pool |
| Reader.ParserValue | src/lua_binary_reader.cpp:224-233 | on any bytes: the value, cursor, stack and number of values built of the parse specification, or its failure or error |
| Reader.ParserArray | src/lua_binary_reader.cpp:165-179 | elements are stored at 1..size in turn; a size from 2^31 on raises |
| Reader.ParserTable | src/lua_binary_reader.cpp:181-198 | pairs are stored in turn; a size beyond 2^26 raises, and so does a key that raw assignment rejects |
| Reader.ParseBinaryTable | src/lua_binary_reader.cpp:236-271 | on any bytes the call ends; unless it raises, the stack is one higher on success, with the value, and two higher on failure, with nil and a message; however it ends, it pushed no more values than there are bytes, nil and message apart |
| Reader.ValueCount | src/lua_binary_reader.cpp:224-233 | whatever the size fields claim, and whether the parse succeeds, fails or raises, a value takes at least one byte of input for each value built |
| Reader.FileCount | src/lua_binary_reader.cpp:236-271 | no more values, pool and its strings included, are built than there are bytes, however the parse ends |
| Reader.OverflowInput | src/lua_binary_reader.cpp:181-198 | thirteen bytes that claim a table of 2^26 + 1 pairs raise |
| Floats.WidenExact | src/lua_binary_reader.cpp:132-139 | a float is widened to the double of the same value, and exactly the NaNs stay NaNs |
| Floats.FloatInteger | src/lua_binary_reader.cpp:132-139 | a float that denotes an integer is the same number, and so the same key, as that integer under any other tag |
| Format.FloatKey | src/lua_binary_reader.cpp:181-198 | a float is refused as a key exactly if it is a NaN |
| FormatLaws.KeyExists | src/lua_binary_reader.cpp:181-198 | nil, NaN and what the format cannot carry are refused as keys, and nothing else |
| FormatLaws.KeysDiffer | src/lua_binary_reader.cpp:181-198 | different values read are different keys, and a table is no key but its own |
| FormatLaws.KeyFile | src/lua_binary_reader.cpp:181-198 | what a file with a boolean and a table as keys is read as |
| Floats.DoubleValue | src/lua_binary_reader.cpp:132-139 | the bits of a double mean its sign, a significand below 2^53 and a power of two |
| Floats.IntegerDouble | src/lua_binary_reader.cpp:132-139 | the double of an integer is read as that integer |
| Floats.FractionDouble | src/lua_binary_reader.cpp:132-139 | the double of an odd integer over a power of two is no integer, and compares as that fraction |
| Numbers.ToDoubleNear | src/lua_binary_reader.cpp:123-130 | an integer becomes the nearest double, and itself up to 2^53 |
| CodeGen.FuncState.CompileInto | lua-5.1.5/src/lcode.c:390-411 | for every expression, machine and start: the finished code, with no jump open, puts the value of the expression into the register and keeps all other registers in use, or raises exactly the error that evaluation raises; the jumps that waited lead to its start, and no other earlier code changes |
| CodeGen.FuncState.SubExpr | lua-5.1.5/src/lparser.c:828-853 | the code emitted for an expression delivers its value where the descriptor says: in a register, as a constant, as a jump, or through its lists of jumps |
| CodeGen.FuncState.Logical | lua-5.1.5/src/lcode.c:710-752 | the code for `and` and `or` evaluates the second operand only if it is needed, and delivers the value of the operand that decides |
| CodeGen.FuncState.Relational | lua-5.1.5/src/lcode.c:666-686 | the code for a comparison evaluates both operands, in order, and its jump is taken exactly if the comparison holds |
| CodeGen.FuncState.CodeNot | lua-5.1.5/src/lcode.c:586-618 | delivers the negation; jumps leave through the other list and no longer bring values |
| CodeGen.FuncState.GoIfTrue | lua-5.1.5/src/lcode.c:539-560 | control goes on only if the value is true, and leaves with the value through the list for false otherwise |
| CodeGen.FuncState.GoIfFalse | lua-5.1.5/src/lcode.c:563-583 | control goes on only if the value is false, and leaves with the value through the list for true otherwise |
| CodeGen.FuncState.JumpOnCond | lua-5.1.5/src/lcode.c:524-536 | a test of the value, or of the operand of a `not` that is taken back |
| CodeGen.FuncState.Exp2Reg | lua-5.1.5/src/lcode.c:390-411 | whatever a view delivers, by falling through or by any jump of either list, ends up in the register |
| CodeGen.FuncState.Exp2RK | lua-5.1.5/src/lcode.c:444-469 | an operand with the value: a constant if there is room, else a register |
| CodeGen.FuncState.Exp2AnyReg | lua-5.1.5/src/lcode.c:422-433 | the value in some register, its own if it has one |
| CodeGen.FuncState.Discharge2Reg | lua-5.1.5/src/lcode.c:343-379 | the value in the register, unless it is still a jump |
| CodeGen.FuncState.CodeComp | lua-5.1.5/src/lcode.c:666-686 | `>` and `>=` become `<` and `<=` with operands exchanged |
| CodeGen.FuncState.PatchListAux | lua-5.1.5/src/lcode.c:151-160 | exactly the jumps of the list are redirected, those that bring a value to one target and the others to another, their tests are patched, and nothing else changes |
| CodeGen.FuncState.PatchTestReg | lua-5.1.5/src/lcode.c:131-141 | a test that yields a value sends it to the register, or becomes a plain test |
| CodeGen.FuncState.RemoveValues | lua-5.1.5/src/lcode.c:144-148 | exactly the tests of the list become plain tests |
| CodeGen.FuncState.NeedValue | lua-5.1.5/src/lcode.c:122-128 | true exactly if some jump of the list brings no value |
| CodeGen.FuncState.Concat | lua-5.1.5/src/lcode.c:185-196 | one list with the jumps of both in order, linked through the last operand of the first |
| CodeGen.FuncState.Jump | lua-5.1.5/src/lcode.c:59-66 | jumps that waited for this position go where the new jump goes |
| CodeGen.FuncState.CondJump | lua-5.1.5/src/lcode.c:74-77 | a test and an open jump behind all pending jumps |
| CodeGen.FuncState.Code | lua-5.1.5/src/lcode.c:789-801 | pending jumps are sent to the instruction as it is emitted |
| CodeGen.FuncState.PatchToHere | lua-5.1.5/src/lcode.c:179-182 | a list joins the pending jumps |
| CodeGen.FuncState.AddK | lua-5.1.5/src/lcode.c:229-247 | a constant is added once |
| CodeGen.FuncState.GetJump | lua-5.1.5/src/lcode.c:100-106 | the next jump of a list |
| Bytecode.Compose | lua-5.1.5/src/lvm.c:541-585 | a run of patched and longer code goes as in the shorter code up to where that ended or was left, and goes on from there |
| CodeFlow.Emitted | lua-5.1.5/src/lcode.c:163-166 | newly emitted instructions are reached where the flow had ended, by falling through or by a pending jump |
| CodeOps.BranchDelivers | lua-5.1.5/src/lcode.c:524-536 | a test and its jump after the code: control leaves with the value when it is not as asked, and stays when it is |
| CodeOps.NegatedDelivers | lua-5.1.5/src/lcode.c:586-618 | with the lists exchanged and no test yielding a value, the negation leaves through the other list |
| CodeOps.RelinkDelivers | lua-5.1.5/src/lcode.c:185-196 | links between open jumps mean nothing to the flow |
| CodeJumps.ComparingDelivers | lua-5.1.5/src/lcode.c:666-686 | a comparison whose jump is taken exactly if it holds, or that raises |
| CodeJumps.JumpedDelivers | lua-5.1.5/src/lcode.c:539-583 | the jump of a comparison joins the list it leaves by, inverted where that is asked for |
| CodeJumps.NotComparison | lua-5.1.5/src/lcode.c:516-521 | inverting the test negates a comparison |
| CodeClose.ClosedDelivers | lua-5.1.5/src/lcode.c:390-411 | with both lists patched, control is at the end with the value in the register, however it came |
| CodeClose.ClosedExit | lua-5.1.5/src/lcode.c:151-160 | a jump that brings its value goes to the end with it, any other loads true or false |
| CodeExpr.ShortCircuit | lua-5.1.5/src/lcode.c:737-752 | code for two operands, joined: `and` and `or` mean what they should |
| CodeExpr.ComparisonComputes | lua-5.1.5/src/lcode.c:666-686 | code for two operands and a test: comparisons mean what they should |
| CodeExpr.EvalBelow | lua-5.1.5/src/lcode.c:304-308 | the meaning of an expression depends on its locals only |
| CodeLaws.NumbersCompare | lua-5.1.5/src/lcode.c:773-778 | if the machine's three comparisons are those of numbers, the six operators are those of numbers |
| CodeLaws.Exchanged | lua-5.1.5/src/lcode.c:666-679 | `a > b` is `b < a`, and `a >= b` is `b <= a` |
| CodeLaws.Unequal | lua-5.1.5/src/lcode.c:773-774 | `a ~= b` is `not (a == b)` |
| CodeLaws.NotValue | lua-5.1.5/src/lobject.h:103 | nil and false are false; zero, the empty string and all else are true |
| CodeLaws.DeMorgan | lua-5.1.5/src/lcode.c:710-752 | `not (a and b)` is `not a or not b`, errors included, and the same with `or` |
| CodeLaws.Associative | lua-5.1.5/src/lcode.c:710-752 | `and` and `or` are associative |
| CodeLaws.Choice | lua-5.1.5/src/lcode.c:710-752 | `a and b or c` chooses between `b` and `c` if `b` is true |
| CodeLaws.Unneeded | lua-5.1.5/src/lcode.c:710-752 | what the second operand comes to, an error even, does not matter if the first decides |
| CodeLaws.ComparisonListing | lua-5.1.5/src/lvm.c:545-570 | a comparison, its jump and two boolean loads leave the truth of the comparison in a register |
| CodeLaws.ChoiceListing | lua-5.1.5/src/lvm.c:577-585 | a TESTSET, its jump and a move leave the value of `and` or `or` |
| CodeLaws.TestListing | lua-5.1.5/src/lvm.c:571-576 | a TEST and its jump skip an instruction or do not |
| CodeLaws.NotListing | lua-5.1.5/src/lvm.c:509-513 | NOT leaves the negation |
| CodeLaws.NilListing | lua-5.1.5/src/lvm.c:420-426 | LOADNIL clears exactly its range |
| JumpLists.ListsJoined | lua-5.1.5/src/lcode.c:185-196 | linking the last jump of a list to another list joins them |
| JumpLists.ListUnique | lua-5.1.5/src/lcode.c:100-106 | a list has only one sequence of jumps |
| Matcher.MatchState.DoMatch | lua-5.1.5/src/lstrlib.c:365-440 | on any pattern: a match exactly if there is a derivation, the one that takes precedence, with its captures; no match leaves level and captures as they were; an error only for a malformed pattern |
| Matcher.MatchState.MaxExpand | lua-5.1.5/src/lstrlib.c:301-313 | the most repetitions that the rest can follow, trying fewer and fewer |
| Matcher.MatchState.MinExpand | lua-5.1.5/src/lstrlib.c:316-326 | the fewest repetitions that the rest can follow |
| Matcher.MatchState.StartCapture | lua-5.1.5/src/lstrlib.c:329-340 | a capture is opened, and taken back if the rest fails |
| Matcher.MatchState.EndCapture | lua-5.1.5/src/lstrlib.c:343-351 | the innermost open capture is closed, and opened again if the rest fails |
| Matcher.MatchState.MatchCapture | lua-5.1.5/src/lstrlib.c:354-362 | whether the subject repeats a finished capture; an error exactly for an index that is not one |
| Matcher.MatchState.MatchBalance | lua-5.1.5/src/lstrlib.c:281-298 | behind the first position where the delimiters balance, if there is one |
| Matcher.MatchState.CaptureToClose | lua-5.1.5/src/lstrlib.c:194-199 | the innermost unfinished capture |
| Matcher.MatchState.FindClassEnd | lua-5.1.5/src/lstrlib.c:202-223 | where the single-character class ends, or what is malformed about it |
| Matcher.MatchState.MatchBracketClass | lua-5.1.5/src/lstrlib.c:245-265 | membership in a set, with ranges, classes and complement |
| Matcher.MatchState.MatchItem | lua-5.1.5/src/lstrlib.c:410-437 | one item and its suffix, in the order of preference that the suffix asks for |
| Matcher.MatchState.MatchEscape | lua-5.1.5/src/lstrlib.c:377-404 | balanced strings, frontiers and back references |
| Matcher.Find | lua-5.1.5/src/lstrlib.c:495-535 | the leftmost match from the start position; with `^` only there; no match exactly if there is a derivation from nowhere |
| Preferred.FindMeans | lua-5.1.5/src/lstrlib.c:495-535 | on every pattern that is written from pieces the search gives what a recursive description of the pieces gives: the leftmost match, its end and its captures, or none; an error only if the captures are out of order |
| Preferred.BestIsFirst | lua-5.1.5/src/lstrlib.c:365-440 | the derivation that takes precedence is the match of the pieces: `*` and `?` prefer one more repetition, `-` prefers none |
| Preferred.SoundIs | lua-5.1.5/src/lstrlib.c:329-362 | a written pattern raises no error exactly if its captures are closed after they are opened, referred to after they are closed, and at most 32 |
| Preferred.PartnerIs | lua-5.1.5/src/lstrlib.c:281-298 | delimiters balance at the first place where as many are closed as opened |
| Preferred.StartMeans | lua-5.1.5/src/lstrlib.c:36-40 | positions count from one, negative ones from the end, and are kept inside the subject |
| Meaning.NextReads | lua-5.1.5/src/lstrlib.c:202-223 | each piece of a written pattern is read as the item it is meant to be, its class up to its own end, and the rest as the rest |
| Meaning.ClassReads | lua-5.1.5/src/lstrlib.c:268-275 | a single-character class ends where its text ends, and matches what it is meant to admit |
| Syntax.SetMeans | lua-5.1.5/src/lstrlib.c:245-265 | a set matches what some element of it admits, ranges closed at both ends; under `^` what none does |
| Syntax.ClassMeans | lua-5.1.5/src/lstrlib.c:226-242 | the characters of each class by their ranges, those of its upper-case letter being all others; any other character stands for itself |
| PlainFind.StrFind | lua-5.1.5/src/lstrlib.c:495-535 | the first occurrence if a plain search is asked for or there is no special character, else the answer of the search for the pattern |
| PlainFind.LMemFind | lua-5.1.5/src/lstrlib.c:444-463 | where a string first occurs, or that it does not |
| PlainFind.PlainAgrees | lua-5.1.5/src/lstrlib.c:502-503 | for a pattern without special characters both searches agree on every subject exactly if it has no zero and no closing bracket |
| Derivation.SomeOnce | lua-5.1.5/src/lstrlib.c:365-440 | only one match takes precedence |
| Derivation.Ranked | lua-5.1.5/src/lstrlib.c:365-440 | of two different derivations exactly one takes precedence |
| Derivation.DerivesOnce | lua-5.1.5/src/lstrlib.c:365-440 | the repetitions of a derivation determine its end and captures |
| Derivation.ForcedSame | lua-5.1.5/src/lstrlib.c:365-408 | an item that leaves no choice passes on the first derivation, or that there is none |
| Derivation.PlusTried | lua-5.1.5/src/lstrlib.c:427-429 | after one repetition `+` goes on as `*` |
| Derivation.OptionalTried | lua-5.1.5/src/lstrlib.c:418-424 | `?` tries one repetition first, then none |
| Derivation.StarTried | lua-5.1.5/src/lstrlib.c:425-426 | the longest run that the rest can follow is the derivation that takes precedence |
| Derivation.MinusTried | lua-5.1.5/src/lstrlib.c:430-432 | the shortest is, for `-` |
| Derivation.StepShape | lua-5.1.5/src/lstrlib.c:329-351 | which captures are finished can be told from the pattern alone |

## Left out

- Weak tables, finalizers and the pacing of the collector; stack shrinking; `luaC_freeall`.
- String contents in the collector: a string is its hash and its identity.
- Allocation failure, and sizes beyond what memory holds; Lua errors are outcomes, not jumps.
- Coroutines are threads that take turns on the program's operations; their C stacks are not modelled.
- Metatables: raw access only. Comparisons in generated code are functions that may raise.
- LuaTable.Table.constructor: sizes up to 2^26 only, because counting stops there; a larger array part is outside the model.
- LuaTable.Table.ResizeArray: to a smaller size only if the hash part has room for what is cut off; the original would rehash in the middle of the copy and then cut an array part that has changed under it.
- `luaH_setnum`, `luaH_setstr`, `luaH_getstr`: `Set` and `Get` for one type of key.
- Light userdata, functions and threads as table keys: a collectable key that is no string is an identity.
- A dead string key stands for its contents; in the original it stands for its address.
- The codec's domain: trees with number and string keys, integral numbers that fit int64, strings shorter than 2^16 bytes, counts below 2^32, borders that are an `int`, one byte order, finite numbers; boolean and table keys, cycles and sharing are outside it.
- `dumpValue` and `dumpTable`: printing has no round trip.
- The reader's stack has no limit, and room that `lua_createtable` reserves ahead is not counted, beyond the sizes for which it always raises.
- Rounding of a double to a float: the writer never writes a float. The payload of a NaN is carried as it is.
- File access, registration with Lua and the command line.
- CodeGen.FuncState.CompileInto: a `LOADNIL` is not merged into the one before it, and a constant `nil` at the start of a function is loaded.
- CodeGen.FuncState.Code: operands are unbounded, so "control structure too long", "function or expression too complex" and "constant table overflow" do not arise; line information is not kept.
- Arithmetic, concatenation, calls, indexing, globals and upvalues in expressions; statements; the lexer and the parser's text.
- The rest of the machine and of the standard library; `ldump.c` and `lundump.c`.
- PlainFind.StrFind: captures are not pushed as values, where an unfinished capture raises.
- Character classes are those of the C locale.
- Preferred.FindMeans: in the data form, a range whose lower end is one of `^`, `-`, `]`, `%` or whose upper end is `]` or `%`, a closing bracket that is not escaped, and escapes of letters that are no class have no spelling; the search itself is proved on every pattern (`Matcher.Find`).
