# Verified models of the aike compiler and its runtime

This project models the algorithms of aike whose correctness is hardest to see from the code: lowering control flow to
basic blocks, the garbage collector, the precedence parser, the type engine with its name mangler, the module sorter, the
coroutine scheduler, the symbol tables of name resolution, and the tokenizer. Every operation is stated in Dafny with the
branches, constants and error outcomes of the code, and the properties the code relies on are proved about it for all
inputs, states and runs.

Check the whole project with `dafny verify dfyconfig.toml`.

## How the project is laid out

Code that updates things step by step is modelled twice: by a function on values, about which the theorems are proved, and
by a class or a loop with the fields and loops of the original, each of whose methods is proved to do what the function
says. The theorems then hold of the class as well.

- **Lowering of control flow.** `IR` is the lowered form, basic blocks with phi nodes, and a machine that runs it one
  instruction at a time. `Source` is the structured language and its direct evaluation. `Lowering` gives code generation as
  functions on the state of the instruction builder, and `CodeBuilder` does it with one mutable builder.
  `LoweringFrame`, `CodeScope`, `CodeStep`, `CodeLoops` and `CodeSim` build up the simulation, `CodeTheorem` states it for
  whole functions, `Readings` relates evaluation that stops at the for loops that cannot be run to evaluation that does not, `CodeShape` proves the shape of the emitted graph and `CodeDominance` that every register is written before
  it is read, on every path and in every run. Effects are compared as memory plus the sequence of calls
  with their arguments, so their order counts. `Values` says what numbers, memory and array elements are without the
  functions that compute them, and `Effects` which calls are made in which order, and how often loops go round.
- **Garbage collector.** `GcArith` holds size classes, the region table, division by reciprocal multiplication and hidden
  pointers; `GcRegions` what a region's pointers and free list mean; `GcTrace` reachability and the bookkeeping of marking;
  `GcMarkBits` the mark bits as 64-bit units, one buffer a region; `GcHeap` the allocator and collector as one class,
  which reads and writes those buffers; its set of marked objects is ghost, and every method keeps the bits equal to it.
  `Heap.Valid` is the invariant over runs: every method that starts from it ends in it, so it holds after any sequence of allocations, frees,
  writes and collections, as long as the stated conditions on full regions are met.
- **Parser.** `Grammar` holds the syntax with its parentheses, `Parser` the parsing functions, `ParserProof` that they
  accept exactly the grammar, `Precedence` which operators bind more tightly, `Printer` the printer with the fewest parentheses, `Streaming` the token stream with its
  nested loops.
- **Types.** `Types`, `Unify`, `Solvable`, `Acyclic`, `Rewriting`, `Mangle` and `Instances` (module `FunctionInstances`) hold types, the constraint table,
  when unification succeeds, when the table stays acyclic, what it equates and what repeated rewriting comes to, mangling, and the cache of generic functions.
- **The rest.** `ModuleSort`, `Scheduler`, `NameMap` (module `NameMaps`) with `Resolve` and `Scopes`, and `Tokenizer`. `Scopes`
  says what is written at each place in the tree from the bindings on the way to it.

## Where the code does less than it seems to

The model keeps the code as it is in each of these places; each has a lemma with the exact condition or a concrete input.

- `codegenFor` records its entry block before it lowers the array expression. The index phi lists the loop's real
  predecessors if and only if that expression opens no block (`CodeShape.ForPhiExact`). A lowered function gets stuck if
  and only if evaluation comes to a for loop over a nonempty array whose array expression opens a block
  (`CodeTheorem.StuckExactly`); otherwise it stops exactly as direct evaluation does (`CodeTheorem.StopsUnlessBroken`).
  `for x in (if f then a else a) {}` is such a function: evaluation finishes and the lowered function gets stuck
  (`CodeTheorem.ForStuckExample`). When no array expression opens a block (`PlainFors`), no such loop is ever reached.
- Division by reciprocal is exact in regions 0 to 522 and, everywhere, at least 48 bytes before the end of an object; the
  last byte of an object in region 523 can be taken for the next object (`GcArith.LastByteInexact`).
- The end pointer of a region is measured from the rounded start, so fresh allocation stays inside the region's 4 GB slot
  if and only if the object size divides 2^32 (`GcArith.StaysInSlot`); objects of regions 2 and 3 can overlap
  (`GcArith.RegionsOverlap`). The free pointer also moves when allocation fails. Hence the methods of `Heap` promise the
  invariant afterwards only when the free pointer is still inside the slot.
- The sweep computes the new free pointer with a 32-bit offset. When a slot is completely full and its last object is
  marked the offset wraps to zero and the region counts as empty (`GcHeap.SweepWraps`). The heap is in order after a
  sweep, and after a collection, if and only if there was no such region (`GcHeap.Heap.Sweep`, `GcHeap.Heap.Collect`).
  Sixteen objects fill the slot of region 767; with the first and the last of them reachable the allocation after a
  collection hands out the first one again although it is live (`GcHeap.LiveObjectReused`).
- A range the sweep gives back to the system is a number of whole pages long, but it starts at a page if and only if its
  region does (`GcHeap.GivenAligned`): regions of big and huge objects do, the region of 48-byte objects does not
  (`GcHeap.PageStarts`).
- Region 256 is never allocated from, and the sweep skips empty regions, so the statement in the sweep that returns big
  free blocks at every collection is never reached (`GcArith.UnusedRegions`). The two computations of a region from a size
  agree exactly on the sizes `GC_malloc` serves (`GcArith.IndexesAgree`).
- The occurs check looks at the new type but not through the table, and the three ways of binding one unknown to another
  skip it, so two entries can form a cycle (`Unify.OccursCheckMissesCycle`). An acyclic table stays acyclic if and only
  if the type of each new entry does not lead back to its unknown through the table (`Acyclic.AddAcyclic`,
  `Acyclic.UnifyAcyclic`).
- Two unknowns are unified if and only if at most one of them has an entry and that entry is not the other unknown
  (`Solvable.UnknownsExactly`): two that are the same already, by an entry, are refused, and so are two that both have
  entries, whatever these are. Types that share no unknown, repeat none and have no entries are unified if and only if
  some assignment makes them the same (`Solvable.LinearExactly`).
- A successful unification need not make the two types equal when two partly unknown types were compared
  (`Unify.SuccessNeedNotEquate`). When the table is acyclic afterwards, every solution equates the two types if and only
  if they resolve to the same type, if and only if at every comparison of a new type with an entry these two resolve to
  the same type (`Acyclic.UnifyEquatesExactly`).
- Mangling knows declarations by name only, and a struct named `string` without arguments, or named `tuple` with some, has
  the mangled form of the built-in type (`Mangle.BuiltinsCollide`). Two types share a mangled form if and only if they are
  the same but for this (`Mangle.TypeExactly`, with `Mangle.PlainMeans` for what that leaves apart), and two requests for
  one generic function share an instance if and only if their final type arguments are (`FunctionInstances.SharedName`).
- Two functions share a key if and only if they are in the same module or in functions that share a key, and have the same
  own name, the same type arguments, the same parameters (none at all counting as one of type void) and, if generic, the
  same result type, types being the same in the sense above (`FunctionInstances.KeysExactly`). Declarations are not
  compared, so the second of two such functions gets the first (`FunctionInstances.Codegen.FunctionDecl`).
- A round of the sorter that adds no module reports the module its search comes to, which may have been reported before;
  it then does so for ever (`ModuleSort.MayNotEnd`). Sorting ends if and only if no round repeats a report, if and only if
  no module is reported twice, and then after at most twice as many rounds as there are modules
  (`ModuleSort.EndsExactly`, `ModuleSort.EndsReportOnce`).

## Model

| member | source | states |
|---|---|---|
| `CodeTheorem.RunsAsEvaluated` | compiler/codegen.cpp:1401-1445 | Running the lowered function reproduces every finished evaluation of its body: same result value, same memory, same calls in the same order, same trap; and while evaluation has not finished within its allowance of loop iterations the machine has made at least that many steps and is still running. |
| `CodeTheorem.StopsOnlyAsEvaluated` | compiler/codegen.cpp:1401-1445 | However the lowered function stops, direct evaluation finishes with the same outcome; in particular it never gets stuck at a phi. |
| `CodeTheorem.StopsExactlyAsEvaluated` | compiler/codegen.cpp:1401-1445 | The lowered function stops with an outcome if and only if direct evaluation of the body has that outcome for some allowance of iterations, so divergence is preserved as well. |
| `CodeTheorem.StuckExactly` | compiler/codegen.cpp:1058-1102 | Whatever its for loops are, a lowered function gets stuck if and only if evaluation comes to a for loop whose array has elements and whose array expression opens a block. |
| `CodeTheorem.StopsUnlessBroken` | compiler/codegen.cpp:1401-1445 | If evaluation does not come to such a loop, the lowered function stops with an outcome if and only if direct evaluation has it for some allowance of iterations, also when the function contains such loops. |
| `CodeTheorem.StopsExactlyAsLowered` | compiler/codegen.cpp:1401-1445 | For every function and every way of stopping, stuck included: the lowered function stops so if and only if evaluation that breaks off at such loops ends so for some allowance. |
| `CodeTheorem.RunsAsLowered` | compiler/codegen.cpp:1401-1445 | Running the lowered function reproduces every such evaluation: value, memory, calls, traps, being stuck where it breaks off, and still running where its allowance is used up. |
| `CodeTheorem.StopsOnlyAsLowered` | compiler/codegen.cpp:1401-1445 | However the lowered function stops, such an evaluation ends the same way. |
| `CodeTheorem.FunctionTwoWay` | compiler/codegen.cpp:947-1102 | No phi of a lowered function has more than two edges. |
| `Readings.Read` | compiler/codegen.cpp:1058-1102 | Evaluation that breaks off at such loops is evaluation of the program as written unless it does break off, which it never does when no array expression of a for loop opens a block. |
| `CodeLoops.LeavesBlock` | compiler/codegen.cpp:947-1135 | Code that contains a branch, loop or bounds check ends in a block it created, not in the block it started in. |
| `CodeTheorem.ForGetsStuck` | compiler/codegen.cpp:1064-1079 | When the array expression of a for loop opens a block, every run that reaches the loop with a nonempty array gets stuck, in any program around the loop whose phis have two edges. |
| `CodeLoops.ForBreaks` | compiler/codegen.cpp:1064-1079 | After the size test of such a loop the machine comes to the index phi from a block the phi does not list. |
| `CodeTheorem.ForFunctionStuck` | compiler/codegen.cpp:1058-1102 | A function whose body is a for loop over an array expression that opens a block gets stuck whenever the expression evaluates to an array with elements. |
| `CodeTheorem.ForStuckExample` | compiler/codegen.cpp:1058-1102 | One such function and its arguments: evaluating the body finishes with void, running the lowered function gets stuck, in every memory and whatever called functions do. |
| `CodeShape.FunctionWellFormed` | compiler/codegen.cpp:1401-1445 | In a lowered function every block ends in a terminator, branches go to existing blocks, every phi is first in its block and lists exactly the block's predecessors, each once. |
| `CodeShape.ForPhiExact` | compiler/codegen.cpp:1058-1102 | The index phi of a for loop lists exactly the loop block's predecessors if and only if the array expression opens no block. |
| `CodeShape.ShapeOf` | compiler/codegen.cpp:1196-1205 | While a function is being lowered every block except the insertion block and the ones still waiting to be started is finished, waiting blocks are empty, and every phi placed so far matches the edges present, whatever blocks the sub-expressions open. |
| `CodeShape.StartPlain` | compiler/codegen.cpp:1196-1205 | Lowering puts no phi into the block it starts in, and that block is finished before the code leaves it; so a loop may branch back to a block it started. |
| `CodeDominance.DomOf` | compiler/codegen.cpp:1196-1205 | While code for any expression is generated there is, for every block, a set of registers written on all ways to it, and with it every instruction, branch and phi placed so far reads written registers only; what was written at the insertion point before, and the value of the expression, is written at the insertion point after. |
| `CodeDominance.FunctionReadsWritten` | compiler/codegen.cpp:1401-1445 | On every path from the entry through the blocks of a lowered function, each register an instruction or branch reads was written before it on that path, and what a phi takes for the block come from was written by the blocks before. |
| `CodeDominance.RunReadsWritten` | compiler/codegen.cpp:1401-1445 | No step of any run of a lowered function reads a register that has not been written, whatever its arguments, the memory and the called functions, and whatever array expressions its for loops have. |
| `CodeSim.Sim` | compiler/codegen.cpp:1196-1205 | From the start of the code for any expression the machine does what evaluating the expression does, in value and reference position, leaves the registers of the code before it alone, and is stuck where evaluation breaks off at a for loop. |
| `CodeSim.SimAndOr` | compiler/codegen.cpp:947-982 | The right side of and/or runs only when the left side does not decide, and the phi takes the value of the side actually come from. |
| `CodeSim.SimIf` | compiler/codegen.cpp:991-1036 | Exactly the chosen branch of an if runs, and its value is the value of the if, also when the branches open blocks of their own. |
| `CodeSim.SimIfThen` | compiler/codegen.cpp:1038-1055 | Without an else branch the body runs exactly when the condition is true, and the result is void. |
| `CodeSim.SimWhile` | compiler/codegen.cpp:1104-1135 | The loop blocks run condition and body as often as evaluation does, for every number of iterations. |
| `CodeSim.SimFor` | compiler/codegen.cpp:1058-1102 | The loop runs the body for each element of the array in order with the element's address and its index bound; size and address are those of the array value before the first iteration. It is stuck instead when the array expression opens a block and the array has elements. |
| `CodeSim.SimIndex` | compiler/codegen.cpp:884-902 | Array and index are evaluated in this order; an index at or above the size, compared unsigned, traps, any other gives the element or its address. |
| `Values.IndexTraps` | compiler/codegen.cpp:884-902 | An index traps if and only if it is negative or not below the size; for a size that reads as negative, if and only if it lies between that size and zero. |
| `Values.IndexGives` | compiler/codegen.cpp:884-902 | Element i of an array of n elements is the i-th cell from where the array starts, or its content; every other index traps. |
| `Values.IndexRuns` | compiler/codegen.cpp:884-902 | Wherever the emitted code for an index stands, the machine traps with memory unchanged exactly for the indices that are no elements, and otherwise has the element's own cell, or its content, in the operand. |
| `Values.Low32` | compiler/codegen.cpp:884-902 | Both readings of a number's low 32 bits differ from it by a multiple of 2^32 and lie in the signed and the unsigned range. |
| `Values.Primitives` | compiler/codegen.cpp:884-1135 | Comparisons, sums, negation and element addresses on numbers in range. |
| `Values.StoreLoad` | compiler/codegen.cpp:904-940 | A load gives what was last stored at that address, and a store changes no other. |
| `Values.CellsDiffer` | compiler/codegen.cpp:933-940 | Fresh cells differ from each other and from the slots of variables. |
| `CodeSim.SimAssign` | compiler/codegen.cpp:904-914 | The address is computed before the value, and the store changes that address only. |
| `CodeSim.SimCall` | compiler/codegen.cpp:825-882 | Function, then arguments left to right, then the call with exactly these values; a void call has no value. |
| `Effects.CallsInOrder` | compiler/codegen.cpp:825-940 | Code without control flow that is evaluated to its end makes exactly the calls written in it, left to right, each after those in its arguments. |
| `Effects.FunctionCallsInOrder` | compiler/codegen.cpp:1401-1445 | So does a lowered function with such a body that returns. |
| `Effects.ArgsRun` | compiler/codegen.cpp:872-874 | Argument k is evaluated k-th, from where the one before ended, and its value is the k-th value passed. |
| `Effects.CallMeans` | compiler/codegen.cpp:825-882 | A call is made with exactly the argument values and gives what the function returns, void for a void call. |
| `Effects.VariablesMean` | compiler/codegen.cpp:759-794 | A declared variable is what is in its slot, a loop's element what is in the element's cell, an index or argument its value. |
| `Effects.StoreThenRead` | compiler/codegen.cpp:904-914 | A variable declared with or assigned a value then has that value; every other declared variable keeps its own. |
| `Effects.NewThenDeref` | compiler/codegen.cpp:927-940 | Behind a new pointer is the value it was made with. |
| `Effects.ForRuns` | compiler/codegen.cpp:1058-1102 | A for loop gone through to its end has run its body once for each element, in order, each time from where the last one ended. |
| `Effects.LoopVariables` | compiler/codegen.cpp:1079-1090 | In iteration i the body sees the cell of element i and the number i, and otherwise what is around the loop. |
| `Effects.WhileRuns` | compiler/codegen.cpp:1104-1135 | A while loop gone through to its end has found its condition true before each run of its body and not true at the end. |
| `Effects.ShortCircuit` | compiler/codegen.cpp:947-982 | After a false left side `and` is false and `or` is its right side; after a true one `or` is true and `and` is its right side. |
| `Effects.OneBranch` | compiler/codegen.cpp:991-1055 | A true condition gives the first branch, a false one the second or void. |
| `CodeLoops.StaysInBlock` | compiler/codegen.cpp:1064-1068 | Code of an expression that opens no block ends in the block it started in, which is what for loops need of their array expression. |
| `CodeStep.SimTrapIf` | compiler/codegen.cpp:543-560 | A true condition runs into the trap block and stops there; a false one continues in the block after it with nothing changed. |
| `LoweringFrame.FrameOf` | compiler/codegen.cpp:1196-1205 | Lowering only extends the insertion block, adds blocks and registers, branches only to blocks it added, and leaves every existing block and phi as it was. |
| `CodeScope.ScopeOf` | compiler/codegen.cpp:759-794 | Every variable in scope after an expression is bound, to an operand that exists at that point; bindings of variables already in scope are kept. |
| `CodeBuilder.Builder.constructor` | compiler/codegen.cpp:1401-1411 | A function starts with one empty entry block, and its parameters are the first registers. |
| `CodeBuilder.Builder.Terminate` | compiler/codegen.cpp:550-556 | A terminator is put at the end of a block that has none yet, and changes nothing else. |
| `CodeBuilder.Builder.CodegenExpr` | compiler/codegen.cpp:1196-1205 | Walking any expression takes the builder from a valid state to exactly the blocks, phis, registers and bindings that the lowering functions give, and back to a valid state. |
| `CodeBuilder.Builder.CodegenIdent` | compiler/codegen.cpp:759-794 | Declared variables and loop elements are loaded unless their address is asked for; indices and arguments are values. |
| `CodeBuilder.Builder.CodegenNot` | compiler/codegen.cpp:920-925 | The operand, then its negation. |
| `CodeBuilder.Builder.CodegenDeref` | compiler/codegen.cpp:927-931 | The pointer itself in reference position, otherwise a load through it. |
| `CodeBuilder.Builder.CodegenNew` | compiler/codegen.cpp:933-940 | The value is computed first, then a fresh cell is made and filled with it. |
| `CodeBuilder.Builder.CodegenBlock` | compiler/codegen.cpp:810-818 | The loop over the block's expressions leaves the value of the last one, void for an empty block. |
| `CodeBuilder.Builder.CodegenArgs` | compiler/codegen.cpp:872-874 | The loop over the arguments collects their operands in order. |
| `CodeBuilder.Builder.CodegenCall` | compiler/codegen.cpp:825-882 | Function, arguments, call instruction. |
| `CodeBuilder.Builder.CodegenAssign` | compiler/codegen.cpp:904-914 | The left side in reference position, the right side, the store. |
| `CodeBuilder.Builder.CodegenVarDecl` | compiler/codegen.cpp:1156-1184 | The initial value is stored into the variable's own slot, and the variable is bound to it afterwards. |
| `CodeBuilder.Builder.CodegenTrapIf` | compiler/codegen.cpp:543-560 | Two new blocks; the trap block ends in a trap and the insertion point is the other one. |
| `CodeBuilder.Builder.CodegenIndex` | compiler/codegen.cpp:884-902 | Both operands, the size test, the trap blocks, the element address and, outside reference position, the load. |
| `CodeBuilder.Builder.CodegenBinaryAndOr` | compiler/codegen.cpp:947-982 | Both edges of the phi are recorded from the blocks in which the two sides ended. |
| `CodeBuilder.Builder.CodegenIf` | compiler/codegen.cpp:991-1036 | Both branches end in a jump to the join, and the phi's edges are the blocks the branches ended in; no phi for void. |
| `CodeBuilder.Builder.CodegenIfThen` | compiler/codegen.cpp:1038-1055 | One branch and the join, no phi. |
| `CodeBuilder.Builder.CodegenFor` | compiler/codegen.cpp:1058-1102 | The entry block is recorded before the array expression is lowered, as in the code; the second edge of the index phi is the block the body ended in. |
| `CodeBuilder.Builder.CodegenWhile` | compiler/codegen.cpp:1104-1135 | Test block, body and end block, with the jump back to the test block from where the body ended. |
| `CodeBuilder.CodegenFunctionBody` | compiler/codegen.cpp:1401-1445 | The finished builder holds exactly the program the theorems are about. |
| `GcArith.MallocFits` | gjduckgc/gc.h:381-397 | A request is served if and only if it is between 1 byte and 256 MB, by a region whose objects are at least as big and less than one unit bigger. |
| `GcArith.IndexesAgree` | gjduckgc/gc.h:179-183 | The region computed by truncating division agrees with the one `GC_malloc` uses exactly on the sizes `GC_malloc` serves. |
| `GcArith.SizeIndexFits` | gjduckgc/gc.h:179-183 | When the truncating computation names a region at all, its objects are big enough if and only if the size is at most 2^32. |
| `GcArith.UnusedRegions` | gjduckgc/gc.h:381-397 | No size is served from region 256 or 512. |
| `GcArith.StartAligned` | gjduckgc/gc.c:298-306 | The first object of a region starts at a multiple of the object size. |
| `GcArith.ReciprocalExact` | gjduckgc/gc.h:291-301 | Multiplying by the reciprocal gives the quotient, or one more; which of the two is decided by the reciprocal's excess and the distance to the next multiple, for every size and every 64-bit address. |
| `GcArith.IsPtrMeaning` | gjduckgc/gc.h:278-283 | The single comparison with deliberate underflow accepts exactly the reserved addresses, and each belongs to the region of its 4 GB slot. |
| `GcArith.InteriorIndex` | gjduckgc/gc.c:728-730 | Any address inside an object has the object's own mark index if and only if the reciprocal divides it exactly, else the next object's; the start of an object always has its own. |
| `GcArith.BaseOfInterior` | gjduckgc/gc.h:310-315 | Rounding an interior pointer down gives the object's start if and only if the reciprocal divides exactly. |
| `GcArith.BasesExact` | gjduckgc/gc.h:297-301 | Object starts are always divided exactly. |
| `GcArith.SmallRegionsExact` | gjduckgc/gc.h:297-301 | In regions 0 to 522 (objects up to 11 MB) every address of the slot is divided exactly. |
| `GcArith.FarFromEndExact` | gjduckgc/gc.h:297-301 | In every region every address at least 48 bytes before its object's end is divided exactly. |
| `GcArith.LastByteInexact` | gjduckgc/gc.h:297-301 | A concrete address for which neither bound holds: the last byte of an object in region 523 is taken for the next object. |
| `GcArith.StaysInSlot` | gjduckgc/gc.c:298-311 | All objects below a region's end pointer lie inside its slot if and only if the object size divides 2^32. |
| `GcArith.RegionsOverlap` | gjduckgc/gc.c:298-311 | An object region 2 may hand out overlaps the first object of region 3. |
| `GcArith.HiddenIsNoPointer` | gjduckgc/gc.h:126-133 | Unhiding undoes hiding, and neither a hidden collector pointer nor hidden null passes the pointer test. |
| `GcArith.ObjectsAligned` | gjduckgc/gc.h:374-379 | Every object starts at a multiple of 16. |
| `GcRegions.ObjectsApart` | gjduckgc/gc.c:298-318 | Distinct objects, of one region or of two, that end inside their slots share no address. |
| `GcTrace.ResolveInterior` | gjduckgc/gc.c:709-731 | The conservative test takes a word that points anywhere into an allocated object for a reference to that object if and only if the reciprocal divides the word exactly. |
| `GcTrace.LinkIsNoPointer` | gjduckgc/gc.c:51-56 | A free-list link is never taken for a reference. |
| `GcTrace.ResolveBelow` | gjduckgc/gc.c:717-730 | A word that passes the test refers to an object below the free pointer or, inexactly, to one of the region's first 32768 mark bits. |
| `GcTrace.TraceEnd` | gjduckgc/gc.c:680-757 | When no range is pending and every root has been taken up, exactly the reachable objects are marked, each having been scanned from its start to its end. |
| `GcTrace.ReachableStep` | gjduckgc/gc.c:680-757 | Reachable is what a word of a root range refers to, or any whole word between start and end of a reachable object. |
| `GcTrace.ReachableLeast` | gjduckgc/gc.c:680-757 | And nothing else: a set that holds the targets of all root words, and of all words of its own objects, holds everything reachable. |
| `GcTrace.ReachableWords` | gjduckgc/gc.c:736-743 | For the set of reachable objects, on addresses: every root word and every aligned word inside an object of the set refers to nothing or into the set, and every object of the set is the target of such a word. |
| `GcTrace.LiveWords` | gjduckgc/gc.c:569-600 | What was live and is referred to by a root word, or by an aligned word inside an object that stays live, stays live. |
| `GcTrace.TracePush` | gjduckgc/gc.c:736-743 | Marking a newly met object and pushing it from its start to its end keeps the invariant of the marking loop: everything marked is reachable, and every word of a marked object is scanned or pending. |
| `GcTrace.TraceSkip` | gjduckgc/gc.c:707-734 | Passing over a word that refers to nothing, or to a marked object, keeps the invariant. |
| `GcTrace.SwapKeeps` | gjduckgc/gc.c:745-754 | Exchanging the current range with an entry of the mark stack keeps the pending ranges as a multiset. |
| `GcMarkBits.BitsFit` | gjduckgc/gc.c:619-625 | The mark memory of a region has a bit for every object of the slot, and for one more. |
| `GcMarkBits.MaskSets` | gjduckgc/gc.c:645-649 | Setting one bit of a unit leaves every other bit as it is. |
| `GcMarkBits.MarkBits.constructor` | gjduckgc/gc.c:619-625 | Fresh mark memory has no bit set. |
| `GcMarkBits.MarkBits.Mark` | gjduckgc/gc.c:638-651 | The bit is set, every other bit is kept, and the result tells whether the object was unmarked before. |
| `GcMarkBits.MarkBits.IsMarked` | gjduckgc/gc.c:656-665 | The test of the unit with the mask tells whether the object's bit is set. |
| `GcMarkBits.MarkBits.Zero` | gjduckgc/gc.c:224-232 | Zeroing some bytes and one page more clears exactly the bits of those bytes, also when the last of them end inside a unit; every other bit is kept. |
| `GcMarkBits.HighBitsAre` | gjduckgc/gc.c:224-232 | What is left of the unit in which the zeroed bytes end: its bits from there on, unchanged. |
| `GcMarkBits.MarkObject` | gjduckgc/gc.c:638-651 | Setting an object's bit in its region's buffer marks that object and no other of any region, and tells whether it was unmarked before. |
| `GcMarkBits.ZeroRegion` | gjduckgc/gc.c:605-633 | Zeroing in one region's buffer unmarks the first objects of that region and nothing else. |
| `GcMarkBits.NewBits` | gjduckgc/gc.c:619-625 | A region that had no mark memory gets a buffer of its own with a bit for every object of the slot; no object becomes marked. |
| `GcHeap.Heap.constructor` | gjduckgc/gc.c:296-318 | The empty heap is valid: no region holds an object. |
| `GcHeap.Heap.LiveApart` | gjduckgc/gc.c:457-527 | In a valid heap no address lies between start and end of two live objects; with the methods below this is the safety of allocation over every run. |
| `GcHeap.Heap.Pop` | gjduckgc/gc.c:466-474 | The first free object is handed out, it was not live, and the rest of the list is the new free list. |
| `GcHeap.Heap.LazyScan` | gjduckgc/gc.c:476-498 | Up to 256 unmarked objects from the start of the window, as read from the mark bits, become the new free list, in order and without gaps, no live word changes, and the window starts after them. |
| `GcHeap.ScanBit` | gjduckgc/gc.c:476-498 | The bit the scan reads lies in the region's mark memory. |
| `GcHeap.Heap.Fresh` | gjduckgc/gc.c:501-526 | What the free pointer points to is handed out exactly when the region is not full and its memory is accessible, in order or not; the free pointer moves in every case. In a valid heap it is the next object, was not live, and the heap stays valid while the free pointer is inside the slot. |
| `GcHeap.Heap.MallocIndex` | gjduckgc/gc.c:457-527 | An object that is not live, of the right region, with nothing live written to; fresh space only when the free list is empty and the window holds no unmarked object among those scanned; null only then as well. |
| `GcHeap.Heap.Malloc` | gjduckgc/gc.h:381-397 | A fatal error exactly for 0 and sizes above 256 MB; otherwise null or a 16-byte aligned object at least as big as asked for, less than one unit bigger, that was not live. |
| `GcHeap.Heap.Free` | gjduckgc/gc.c:554-564 | A live object becomes the head of its region's free list; no other live object is touched. |
| `GcHeap.Heap.MarkInit` | gjduckgc/gc.c:605-633 | Afterwards every region that holds objects has mark memory and no bit set in it: new memory where it had none, zeroed memory where it had some; no other object becomes marked. |
| `GcHeap.Heap.Mark` | gjduckgc/gc.c:670-758 | Marking ends on every heap graph; the objects newly marked, in the mark bits, are exactly those reachable from the roots through words that pass the pointer test: every root word and every aligned word inside a newly marked object, up to its last, refers to nothing or to a newly marked object, and each of these is the target of such a word; the used size is their total size; the mark stack, its bottom aside, never holds more ranges than objects have been marked. |
| `GcHeap.TargetBit` | gjduckgc/gc.c:709-731 | The bit of any object that a word can refer to lies in the mark memory of its region, and the region has some. |
| `GcHeap.MarkSwap` | gjduckgc/gc.c:745-754 | The exchanged entry lies above the bottom entry of the stack, and the exchange keeps the invariant of the marking loop. |
| `GcHeap.MarkPush` | gjduckgc/gc.c:736-743 | A push keeps the invariant, adds the object's size to the used size, and leaves fewer objects to mark. |
| `GcHeap.Heap.SweepRegion` | gjduckgc/gc.c:771-822 | Of n objects at least (n - 1) / 2 stay below the new end, which otherwise lies just above the last marked object; everything cut off is unmarked; the free pointer is the region's start plus the size of what stays, modulo 2^32; every range given back lies in a run of unmarked objects, is whole pages long, and starts whole pages after the start of the region; other regions stay as they are. |
| `GcHeap.SweepBit` | gjduckgc/gc.c:781-802 | The bit the sweep reads lies in the region's mark memory. |
| `GcHeap.Heap.Sweep` | gjduckgc/gc.c:763-824 | Every region is swept, unmarked objects are no longer live, and the heap is valid afterwards if and only if no region had filled its slot with its last object marked. |
| `GcHeap.Heap.Collect` | gjduckgc/gc.c:569-600 | Nothing happens while collection is disabled; otherwise exactly the live objects that are reachable from the roots stay live, in particular every one that any aligned word of a live object refers to; the heap is valid afterwards if and only if no completely full slot has its last object reachable, and the free pointer of a region with such a slot is back at the region's start. |
| `GcHeap.SweptOk` | gjduckgc/gc.c:803-822 | A swept region is in order again: its window is all that is left of it and its free list is empty. |
| `GcHeap.TrimAddress` | gjduckgc/gc.c:804-807 | The free pointer computed with a 32-bit offset is the address of the new end, unless the slot is full and its last object marked. |
| `GcHeap.SweepWraps` | gjduckgc/gc.c:804-807 | In that case the offset wraps to zero and the region counts as empty although its last object is marked. |
| `GcHeap.SweptWrong` | gjduckgc/gc.c:804-807 | A region so swept is out of order: its free pointer is its start, which is not the end of its objects. |
| `GcHeap.LiveObjectReused` | gjduckgc/gc.c:763-824 | Filling the slot of region 767, keeping its first and last objects reachable, collecting and allocating again hands out the address of the first object, which was live. |
| `GcHeap.GivenInRun` | gjduckgc/gc.c:790-802 | A range given back, rounded to pages with 32-bit arithmetic, lies inside the run of unmarked objects it was computed from. |
| `GcHeap.GivenAligned` | gjduckgc/gc.c:790-802 | A range given back starts at a page if and only if its region starts at a page. |
| `GcHeap.PageStarts` | gjduckgc/gc.c:298-306 | Regions of big and huge objects start at a page; the region of 48-byte objects does not. |
| `ParserProof.ParseExact` | compiler/parse.cpp:938-1032 | Parsing consumes a token list completely and returns a tree if and only if the list is that tree's text and operators bind in the tree as their priorities say, left to right. |
| `ParserProof.Unambiguous` | compiler/parse.cpp:1000-1032 | No token list is the text of two proper trees. |
| `ParserProof.SoundClimb` | compiler/parse.cpp:1000-1027 | Climbing reads exactly up to the first operator below the limit; what it builds spells the tokens read, left operands bind at least and right operands more tightly than their operator. |
| `ParserProof.CompleteClimb` | compiler/parse.cpp:1000-1027 | Climbing over the tokens of any proper tree, followed by something that cannot continue it, builds that tree. |
| `ParserProof.SoundPrimary` | compiler/parse.cpp:938-998 | A primary spells the tokens read, and reading stopped where no call, index, member or assignment follows. |
| `ParserProof.CompletePrim` | compiler/parse.cpp:938-998 | Every well-formed primary is read back from its tokens, prefix operators, parentheses, calls, indexes, members and assignment included. |
| `ParserProof.SoundExpr` | compiler/parse.cpp:1029-1032 | The expression read spells the tokens read, and no operator follows it. |
| `ParserProof.CompleteExpr` | compiler/parse.cpp:1029-1032 | Every proper expression is read back when nothing that follows continues it. |
| `Grammar.BinaryTokens` | compiler/parse.cpp:903-924 | Every binary operator is recognised from its own token. |
| `Precedence.LevelsExactly` | compiler/parse.cpp:903-925 | A token is a binary operator if and only if it is in the table of six levels, and its priority is its level. |
| `Precedence.SingleTokens` | compiler/parse.cpp:795-866 | A single token is an expression if and only if it is a name, `and` or `or`, a truth value, a number or a string. |
| `Precedence.TwoOperators` | compiler/parse.cpp:1000-1027 | Of two operators between three words the one of the higher level takes its operands first, of equal levels the left one. |
| `Precedence.PrefixThenBinary` | compiler/parse.cpp:938-953 | An operator in front of a word binds more tightly than one after it. |
| `Precedence.PrefixThenPostfix` | compiler/parse.cpp:938-998 | It binds less tightly than an index, a call or a member. |
| `Precedence.PrefixTable` | compiler/parse.cpp:879-889 | The five operators that stand in front of a term. |
| `Precedence.AssignTakesAll` | compiler/parse.cpp:993-995 | The value of an assignment takes in the operators after it. |
| `Precedence.Parentheses` | compiler/parse.cpp:838-864 | Parentheses around nothing are void, around an expression that expression, around several a tuple. |
| `Printer.PrintProper` | compiler/parse.cpp:1000-1032 | Printing gives a proper expression that means the tree printed. |
| `Printer.RoundTrip` | compiler/parse.cpp:1029-1032 | Parsing what was printed consumes all of it and gives the tree back. |
| `Printer.Minimal` | compiler/parse.cpp:1000-1032 | The inductive form of the next row: no proper expression has fewer parentheses than the printed form of its tree, and one more where the printed form ends in an assignment and it does not. |
| `Printer.FewestParentheses` | compiler/parse.cpp:1000-1032 | Printing uses the fewest parentheses of all proper expressions for the tree. |
| `Streaming.ClimbSplit` | compiler/parse.cpp:1014-1019 | Climbing with a high limit and going on with a lower one is climbing with the lower one: the inner loop of the code does what one recursive call would. |
| `Streaming.TokenStream.Get` | compiler/parse.cpp:18-21 | Looking ahead gives the token at that distance, or the end token. |
| `Streaming.TokenStream.Move` | compiler/parse.cpp:23-28 | Moves past exactly one token. |
| `Streaming.TokenStream.Eat` | compiler/parse.cpp:64-80 | Moves past the token exactly when it is the expected one, and fails in place otherwise. |
| `Streaming.TokenStream.ParsePrim` | compiler/parse.cpp:938-998 | The stream ends up, and the tree is, as the parsing function says; failure in the same cases. |
| `Streaming.TokenStream.ParseTermTree` | compiler/parse.cpp:795-869 | The same for terms. |
| `Streaming.TokenStream.ParseList` | compiler/parse.cpp:846-856 | The loop over comma-separated items up to the closing parenthesis. |
| `Streaming.TokenStream.ParsePostfixes` | compiler/parse.cpp:981-995 | The loop over calls, indexes and members, and the one assignment after it. |
| `Streaming.TokenStream.ParseCall` | compiler/parse.cpp:549-571 | One call taken in, everything that may still follow unchanged. |
| `Streaming.TokenStream.ParseIndex` | compiler/parse.cpp:573-584 | One index taken in. |
| `Streaming.TokenStream.ParseMember` | compiler/parse.cpp:595-616 | One member taken in; followed by a call it is a method call with the term as first argument. |
| `Streaming.TokenStream.ParseAssign` | compiler/parse.cpp:618-627 | The value is a whole expression. |
| `Streaming.TokenStream.ParseExprClimb` | compiler/parse.cpp:1000-1027 | The two nested loops build the tree of the climbing function and stop at the same token, also when parsing fails. |
| `Streaming.TokenStream.ParseExpression` | compiler/parse.cpp:1029-1032 | The expression parser on the stream is the parsing function. |
| `Types.OccursUnknown` | compiler/type.cpp:186-229 | The occurs check finds an unknown exactly when it is one of the type's unknowns. |
| `Types.KnownMeans` | compiler/type.cpp:231-276 | A type is known exactly when it has no unknowns. |
| `Types.EqualsKnown` | compiler/type.cpp:181-184 | Comparison without a table is equality whenever one of the types is known. |
| `Types.InstantiateAgree` | compiler/type.cpp:278-340 | Two instantiations of a type agree exactly when they agree on every generic parameter used in it. |
| `Types.InstantiateTwice` | compiler/type.cpp:278-340 | Instantiating twice is instantiating once with the composition. |
| `Types.MemberInstantiated` | compiler/type.cpp:342-375 | Taking a member commutes with instantiating if and only if the instantiation leaves alone every parameter of the field that is not the struct's own. |
| `Types.MemberMeans` | compiler/type.cpp:342-375 | A member of a tuple is the field at its place; a struct's field whose type is a parameter has the argument at that parameter's place; one without parameters has its declared type. |
| `Types.Unparameterized` | compiler/type.cpp:278-340 | Instantiating replaces a parameter by what it stands for and leaves a type without parameters alone. |
| `Unify.UnifyCommits` | compiler/type.cpp:102-179 | On success and on failure no entry of the table changes, and every assignment that solves the table and equates the two types still solves the table afterwards. |
| `Solvable.UnknownsExactly` | compiler/type.cpp:11-24 | For two different unknowns, in any table: success if and only if at most one has an entry and that entry is not the other one. |
| `Solvable.UnknownExactly` | compiler/type.cpp:25-38 | For an unknown and a type that is none, in any table and on either side: success if and only if its entry is the same type up to unknowns or, without an entry, the type does not contain it. |
| `Solvable.EqualsExactly` | compiler/type.cpp:181-184 | Comparison without a table holds if and only if the types are the same once all unknowns are made one. |
| `Solvable.LinearExactly` | compiler/type.cpp:102-179 | Types that share no unknown, repeat none, and whose unknowns have no entries are unified if and only if some assignment makes them the same. |
| `Unify.UnifyEquates` | compiler/type.cpp:102-179 | On success an assignment that solves the new table equates the two types, when each comparison of a new type with an entry involves a known type; no table has to be acyclic. |
| `Unify.MatchExact` | compiler/type.cpp:102-179 | With known entries, unifying with a known type succeeds if and only if some assignment that solves the table makes the other type equal to it; the order of the two does not matter. |
| `Unify.SuccessNeedNotEquate` | compiler/type.cpp:32-33 | A concrete success without that condition whose solutions do not all equate the types. |
| `Unify.OccursCheckMissesCycle` | compiler/type.cpp:32-37 | A concrete acyclic table and a successful unification after which no ranking of the unknowns exists. |
| `Acyclic.AddAcyclic` | compiler/type.cpp:6-41 | Adding a constraint to an acyclic table, by any of the four ways of binding an unknown, leaves it acyclic if and only if the type bound does not lead to the unknown, directly or through any number of entries. |
| `Acyclic.EntryAcyclic` | compiler/type.cpp:6-41 | An entry for an unbound unknown keeps a table acyclic if and only if its type does not lead back to that unknown. |
| `Acyclic.UnifyAcyclic` | compiler/type.cpp:102-179 | Unification, successful or not, leaves an acyclic table acyclic if and only if every entry it makes on its way is so. |
| `Acyclic.ResolutionSolves` | compiler/type.cpp:43-100 | In an acyclic table replacing unknowns over and over solves the table. |
| `Acyclic.ResolvedMeans` | compiler/type.cpp:43-100 | A type and its full resolution are the same under every assignment that solves the table. |
| `Acyclic.ResolvedFree` | compiler/type.cpp:43-100 | A full resolution has no unknown that has an entry. |
| `Acyclic.EquatesExactly` | compiler/type.cpp:102-179 | An acyclic table equates two types, under every assignment that solves it, if and only if they have the same full resolution. |
| `Acyclic.UnifySame` | compiler/type.cpp:102-179 | After a success an assignment that solves the table equates the two types if and only if it equates each new type with the entry it was compared with. |
| `Acyclic.UnifyEquatesExactly` | compiler/type.cpp:102-179 | After a success that leaves the table acyclic: every solution equates the two types, the two types have the same full resolution, and each new type has the same full resolution as the entry it was compared with, are the same thing. |
| `Unify.RewriteMeans` | compiler/type.cpp:43-100 | On an acyclic table rewriting ends, and the result equals the input under every assignment that solves the table. |
| `Unify.RewriteCounts` | compiler/type.cpp:43-51 | The counter stays unchanged exactly when no unknown of the type has an entry, and then the result is the input. |
| `Rewriting.RewriteLowers` | compiler/type.cpp:43-51 | One rewriting replaces every unknown that has an entry: those of the result that have entries rank below the highest before. |
| `Rewriting.RewritingResolves` | compiler/type.cpp:43-100 | Rewriting a type as often as its unknowns have ranks gives its full resolution. |
| `Rewriting.RewritingEnds` | compiler/type.cpp:43-100 | In particular as often as the bound on the ranks, after which a further pass changes and counts nothing. |
| `Unify.TypeConstraints.Add` | compiler/type.cpp:6-41 | The table and the verdict after adding one constraint, for every combination of bound and unbound unknowns; when it succeeds is `Solvable.UnknownsExactly` and `Solvable.UnknownExactly`. |
| `Unify.TypeConstraints.UnifyTypes` | compiler/type.cpp:102-179 | The table and the verdict after walking both types. |
| `Unify.TypeConstraints.UnifyLists` | compiler/type.cpp:120-124 | The loop over two lists of one length stops at the first failure, entries made before it stay. |
| `Unify.TypeConstraints.RewriteType` | compiler/type.cpp:43-100 | The type and the counter as the rewriting function gives them; ends on every acyclic table; what repeated rewriting comes to is `Rewriting.RewritingEnds`. |
| `Unify.TypeConstraints.RewriteList` | compiler/type.cpp:57-58 | The loop over parts. |
| `Mangle.NameUnique` | compiler/mangle.cpp:9-13 | A length-prefixed name that does not start with a digit, as no identifier does, can be read off the front of any string in one way only. |
| `Mangle.TypeUnique` | compiler/mangle.cpp:15-118 | A mangled closed type can be read off the front of any string in one way only: equal strings force types that are the same by name, a struct with a built-in type's name counting as that type, and equal rests. |
| `Mangle.TypeExactly` | compiler/mangle.cpp:15-118 | Two mangled types, each followed by anything, are the same string if and only if the types are the same in that sense and the same follows. |
| `Mangle.ListExactly` | compiler/mangle.cpp:80-87 | The same for two lists of mangled types before a closing E or z. |
| `Mangle.PlainMeans` | compiler/mangle.cpp:41-114 | What that sense tells apart: struct types by name and arguments; a struct from string unless it is named so and has no arguments; a struct from a tuple type unless it is named tuple and has that type's fields as arguments. |
| `Mangle.MangledByName` | compiler/mangle.cpp:97-114 | Types that are the same in that sense are mangled alike. |
| `Mangle.ListUnique` | compiler/mangle.cpp:80-87 | So can a list of mangled types before a closing E or z. |
| `Mangle.BuiltinsCollide` | compiler/mangle.cpp:41-58 | A struct named string without arguments, or tuple with arguments, has the mangled form of the built-in type. |
| `Mangle.BuiltinForms` | compiler/mangle.cpp:17-46 | The letters of the built-in types. |
| `Mangle.CompoundForms` | compiler/mangle.cpp:48-72 | What arrays, pointers and tuples are written as. |
| `Mangle.FunctionForms` | compiler/mangle.cpp:74-88 | Function types, result before parameters, with the mark for variable arguments. |
| `Mangle.StructForms` | compiler/mangle.cpp:90-114 | Structs, with and without arguments. |
| `Mangle.LongName` | compiler/mangle.cpp:9-13 | A length of two digits. |
| `Mangle.InstantiateCloses` | compiler/mangle.cpp:92-96 | Instantiating with a table that gives closed types for all parameters used leaves a closed type. |
| `Mangle.Mangler.MangleType` | compiler/mangle.cpp:15-118 | Appending with parameters looked up on the way appends exactly the mangled form of the instantiated type. |
| `Mangle.Mangler.MangleInstance` | compiler/mangle.cpp:97-114 | The nested name with its arguments, if any. |
| `Mangle.Mangler.MangleList` | compiler/mangle.cpp:80-81 | The loop over arguments appends their mangled forms in order. |
| `FunctionInstances.SharedName` | compiler/codegen.cpp:731-757 | Two requests for one generic function under one parent get the same mangled name, hence the same instance, exactly when their final type arguments are the same by name, a struct with a built-in type's name counting as that type. |
| `FunctionInstances.SameTypes` | compiler/codegen.cpp:731-757 | Requests whose final arguments are the same in that sense have final types that are. |
| `FunctionInstances.ZipFinds` | compiler/codegen.cpp:744-752 | Looking a parameter up in an instance gives the final argument it was made with. |
| `FunctionInstances.GetGenericInstance` | compiler/codegen.cpp:82-99 | The loops find what a parameter stands for in the current instance or, failing that, in the nearest one around it. |
| `FunctionInstances.GetFunctionInstance` | compiler/codegen.cpp:101-114 | The loop finds the nearest enclosing instance of a declaration, if any. |
| `FunctionInstances.LookupNearest` | compiler/codegen.cpp:82-99 | A parameter stands for what the first pair for it says in the nearest instance, going outwards, that has one. |
| `FunctionInstances.LookupNone` | compiler/codegen.cpp:82-99 | And for nothing if no instance around has a pair for it. |
| `FunctionInstances.EnclosingNearest` | compiler/codegen.cpp:101-114 | The instance of a declaration is the nearest one going outwards. |
| `FunctionInstances.EnclosingNone` | compiler/codegen.cpp:101-114 | And there is none if no instance around is of it. |
| `FunctionInstances.MangleFnName` | compiler/mangle.cpp:120-143 | The function's name or number and its final type arguments are appended. |
| `FunctionInstances.MangleParameters` | compiler/mangle.cpp:187-198 | The final parameter types, `v` when there are none, `z` for variable arguments. |
| `FunctionInstances.MangleFunctionName` | compiler/mangle.cpp:145-201 | The name built piece by piece is the mangled name at the final types and arguments, for all three kinds of parent. |
| `FunctionInstances.PairUp` | compiler/codegen.cpp:744-752 | The loop pairs every parameter with its final argument, in order. |
| `FunctionInstances.Codegen.FunctionDecl` | compiler/codegen.cpp:731-757 | A known name gives the function made before and changes nothing; a new one makes exactly one function and queues exactly one instance, with its declaration, parent and arguments. Either way the function returned was made for a request that is the same as this one in its own name, type arguments, parameters and (if generic) result type, and so are the functions around it, up to the module. |
| `FunctionInstances.Codegen.Enter` | compiler/codegen.cpp:738-756 | A new function is entered under its name and queued once; those made before are kept. |
| `FunctionInstances.KeysExactly` | compiler/mangle.cpp:120-201 | Two functions, at top level, in modules or nested in functions to any depth, have the same mangled name if and only if they have the same own name or number, type arguments, parameters (none at all counting as one of type void) and, when there are type arguments, result type, and what they are in is the same module or are functions that have the same mangled name. |
| `FunctionInstances.PlainNames` | compiler/mangle.cpp:120-201 | The names of top-level functions with and without parameters, and of one without a name. |
| `FunctionInstances.NestedNames` | compiler/mangle.cpp:145-201 | The names of a function in a module, of one in a function, and of an instance of a generic one. |
| `FunctionInstances.KeyUnique` | compiler/mangle.cpp:145-172 | A function's name, as it stands in the name of a function nested in it, can be read off the front in one way only. |
| `FunctionInstances.NamesExactly` | compiler/mangle.cpp:120-201 | Under one parent, whatever its name, two functions have the same mangled name if and only if they have the same own name or number, the same type arguments, the same parameters where none at all is one of type void, and, when they have type arguments, the same result type, a struct with a built-in type's name counting as that type. |
| `FunctionInstances.FollowingUnique` | compiler/mangle.cpp:130-200 | Type arguments, result type and parameters can be read off what follows a function's own name. |
| `FunctionInstances.ParametersExactly` | compiler/mangle.cpp:187-198 | Two parameter lists are written alike if and only if they are the same, variable arguments included, where none at all is one of type void and a struct with a built-in type's name is that type. |
| `FunctionInstances.BaseNameUnique` | compiler/mangle.cpp:120-143 | A function's own name or number can be read off the front of what follows its parent's name. |
| `FunctionInstances.Codegen.NextPending` | compiler/codegen.cpp:1542-1546 | The last queued instance is taken, and no instance is generated twice. |
| `ModuleSort.SortsAcyclic` | compiler/modules.cpp:75-122 | On a closed acyclic import graph sorting ends after at most as many rounds as there are modules, reports nothing, and returns every module exactly once with every import before its importer. |
| `ModuleSort.EndsComplete` | compiler/modules.cpp:75-122 | Whenever sorting ends, cycles or not, every module is in the result exactly once. |
| `ModuleSort.StuckReports` | compiler/modules.cpp:107-116 | In any state that sorting reaches, a round without progress finds a module; it transitively imports itself and the first pending module leads to it. |
| `ModuleSort.FirstReport` | compiler/modules.cpp:107-116 | Before any cycle is broken such a round reports exactly that module. |
| `ModuleSort.SearchFinds` | compiler/modules.cpp:37-57 | A module the search returns transitively imports itself and is reached from where the search started. |
| `ModuleSort.SearchSucceeds` | compiler/modules.cpp:37-57 | From any set of modules each of which has an import in the set, the search finds a cycle. |
| `ModuleSort.RoundPartition` | compiler/modules.cpp:88-119 | No round loses a module or adds one twice. |
| `ModuleSort.PassExactly` | compiler/modules.cpp:90-105 | A pass adds a pending module if and only if each of its imports was visited or has been added earlier in the pass. |
| `ModuleSort.PassOrder` | compiler/modules.cpp:90-105 | What a pass adds and what it keeps stay in order. |
| `ModuleSort.EndsExactly` | compiler/modules.cpp:75-122 | For every closed import graph, sorting ends if and only if no round without progress reports a module that already counts as visited, if and only if it ends after at most twice as many rounds as there are modules. |
| `ModuleSort.EndsReportOnce` | compiler/modules.cpp:107-116 | Sorting ends if and only if no module is ever reported twice. |
| `ModuleSort.ReportsExactly` | compiler/modules.cpp:75-122 | No circular import is reported, in as many rounds as there are modules, if and only if no module transitively imports itself. |
| `ModuleSort.MayNotEnd` | compiler/modules.cpp:107-116 | A concrete graph with two cycles on which every round reports the same module again and adds nothing, for any number of rounds. |
| `ModuleSort.AscendingUnique` | compiler/modules.cpp:83-84 | The order sorting starts from does not depend on how the modules are stored. |
| `ModuleSort.ModuleIsReady` | compiler/modules.cpp:66-73 | Ready exactly when every import has been visited. |
| `ModuleSort.CycleSearch.Find` | compiler/modules.cpp:37-57 | The search with one shared set of visited modules finds what the search along paths finds, and leaves the set as it was when it finds nothing. |
| `ModuleSort.Compact` | compiler/modules.cpp:90-105 | The in-place pass keeps exactly the modules that were not ready, in order, and adds the others. |
| `ModuleSort.Sort` | compiler/modules.cpp:75-122 | The loop gives the order and the reports of the first state with nothing pending, and stops without one exactly on the graphs on which the code's loop goes on for ever. |
| `Scheduler.StepInv` | runtime/scheduler.cpp:28-130 | Spawning, yielding, finishing and dispatching each keep the invariant: every coroutine spawned is ready, running or finished, in one way and once, and what has finished is freed or waiting to be. |
| `Scheduler.EveryRun` | runtime/scheduler.cpp:28-130 | In every run from the start each unfinished coroutine is ready or running exactly once, and what is freed has finished, is freed once, and is neither ready nor running. |
| `Scheduler.ReturnsWhenDone` | runtime/scheduler.cpp:118-130 | The worker returns only when every coroutine spawned has finished and been freed, each once. |
| `Scheduler.ReturnsExactly` | runtime/scheduler.cpp:118-130 | When the worker acts everything finished is freed; it returns if and only if every coroutine spawned has finished, and otherwise one that has not finished runs. |
| `Scheduler.FirstInFirstOut` | runtime/scheduler.cpp:28-70 | The coroutine at place k of the queue moves up one place each time the worker acts, whatever is spawned, yields or finishes in between. |
| `Scheduler.RunsInTurn` | runtime/scheduler.cpp:46-70 | The coroutine at place k runs after exactly k other dispatches. |
| `Scheduler.Scheduler.Queue` | runtime/scheduler.cpp:28-44 | The linked list gains the coroutine at its end, with every link right in both directions. |
| `Scheduler.Scheduler.Dispatch` | runtime/scheduler.cpp:46-70 | The first coroutine leaves the list and becomes the running one, and the links of the rest are right. |
| `Scheduler.Scheduler.Spawn` | runtime/scheduler.cpp:90-102 | A new coroutine is appended, as the abstract step says. |
| `Scheduler.Scheduler.YieldCurrent` | runtime/scheduler.cpp:104-116 | The running coroutine goes to the end of the queue and none is running. |
| `Scheduler.Scheduler.FinishCurrent` | runtime/scheduler.cpp:77-88 | The coroutine whose function returned waits to be freed; no other one was waiting. |
| `Scheduler.Scheduler.WorkerStep` | runtime/scheduler.cpp:118-130 | What waits is freed first, then the next ready coroutine runs, or the worker returns when there is none. |
| `NameMaps.ChainValues` | compiler/resolve.cpp:24-47 | The shadow chain of a name holds its values newest first. |
| `NameMaps.AllOfTwo` | compiler/resolve.cpp:31-47 | Later bindings come before earlier ones, and bindings of other names do not matter. |
| `NameMaps.NameMap.Find` | compiler/resolve.cpp:24-29 | The newest value bound to the name on the plain stack of bindings. |
| `NameMaps.NameMap.FindAll` | compiler/resolve.cpp:31-47 | All values bound to the name, newest first. |
| `NameMaps.NameMap.Push` | compiler/resolve.cpp:49-55 | One binding on top of the stack; the shadow chains stay consistent. |
| `NameMaps.NameMap.Pop` | compiler/resolve.cpp:57-69 | Exactly the bindings above the offset are undone, for every name. |
| `NameMaps.NameMap.Top` | compiler/resolve.cpp:71-74 | The number of bindings. |
| `Resolve.NamesExtend` | compiler/resolve.cpp:174-292 | Resolving any node loses or changes no binding in scope and leaves the enclosing functions as they were. |
| `Scopes.WrittenExactly` | compiler/resolve.cpp:174-292 | Something is written if and only if it is, for some place in the tree, what stands there resolved among the bindings that the nodes on the way to it bring into scope. |
| `Scopes.IdentExactly` | compiler/resolve.cpp:174-186 | For every identifier the visible ones among the variables of its name that the way to it brings into scope are written, newest first. |
| `Scopes.IdentOnly` | compiler/resolve.cpp:174-186 | And nothing else is written for identifiers. |
| `Scopes.VisibleExactly` | compiler/resolve.cpp:157-172 | The newest binding alone when it is no function, otherwise all functions of the name in their order. |
| `Scopes.NamedAre` | compiler/resolve.cpp:31-47 | The variables of a name are those bound to it and no others. |
| `Scopes.NamedTwo` | compiler/resolve.cpp:31-47 | Later bindings come first. |
| `Scopes.FunctionsAre` | compiler/resolve.cpp:157-172 | The functions kept are those of the name that are functions. |
| `Scopes.FunctionsTwo` | compiler/resolve.cpp:157-172 | They keep their order. |
| `Scopes.BlockDeclares` | compiler/resolve.cpp:187-193 | The functions and structs a block declares are in scope in every part of the block, before their declarations too. |
| `Scopes.BlockFunctionSeen` | compiler/resolve.cpp:187-198 | A function a block declares is a target of every identifier of its name anywhere in the block, if the bindings of the name nearer to the identifier are functions. |
| `Scopes.ScopeComesFrom` | compiler/resolve.cpp:174-292 | Whatever is in scope at a place has been brought by a node on the way to it. |
| `Scopes.ScopesClosed` | compiler/resolve.cpp:187-277 | Blocks, loops, functions and structs leave nothing in scope after them. |
| `Scopes.ForSees` | compiler/resolve.cpp:209-223 | The array expression of a for loop does not see its variables; its body does, as the newest. |
| `Scopes.FunctionSees` | compiler/resolve.cpp:224-277 | A function's body sees its parameters and generic parameters and nothing else of the function; a struct its generic parameters. |
| `Scopes.ParentExactly` | compiler/resolve.cpp:224-228 | The parent written for a function is the innermost function whose body it is in. |
| `Scopes.InnermostIs` | compiler/resolve.cpp:224-228 | That is the last function on the way to it. |
| `Scopes.TypeExactly` | compiler/resolve.cpp:114-133 | A type name gives the newest struct of the name in scope and, only if there is none, the newest generic parameter. |
| `Scopes.DefPlace` | compiler/resolve.cpp:114-133 | The newest struct of a name is the one at the last place. |
| `Scopes.GenericPlace` | compiler/resolve.cpp:114-133 | And so with generic parameters. |
| `Resolve.Resolver.ResolveNode` | compiler/resolve.cpp:174-292 | The three symbol tables and what is written into the tree are as resolution on plain stacks gives them, and so as `Scopes.WrittenExactly` says; blocks, loops, functions and structs leave the tables as they found them. |
| `Resolve.Resolver.ResolveNodes` | compiler/resolve.cpp:195-207 | The same for a list of nodes. |
| `Resolve.Resolver.ResolveBlock` | compiler/resolve.cpp:187-198 | All declarations of a block are visible in all of it, and none afterwards. |
| `Resolve.Resolver.ResolveFor` | compiler/resolve.cpp:209-223 | The array expression is resolved before the loop variables are bound; they are gone after the body. |
| `Resolve.Resolver.ResolveFn` | compiler/resolve.cpp:224-255 | The parent is the innermost enclosing function; parameters, generic ones included, are visible in the function only. |
| `Resolve.Resolver.ResolveTy` | compiler/resolve.cpp:256-277 | A struct's generic parameters are visible in the struct only. |
| `Resolve.Resolver.Leave` | compiler/resolve.cpp:98-103 | Undoing the three tables to the recorded sizes restores the scope exactly. |
| `Resolve.Resolver.ResolveBindings` | compiler/resolve.cpp:157-172 | The newest binding alone unless it is a function, then all functions of the name, newest first. |
| `Resolve.Resolver.ResolveTypes` | compiler/resolve.cpp:114-133 | A struct of the name before a generic parameter of the name, and neither when there is none. |
| `Resolve.Resolver.DeclareNodes` | compiler/resolve.cpp:106-112 | The functions and structs among the nodes are bound in order. |
| `Resolve.Resolver.ResolveImport` | compiler/resolve.cpp:135-155 | What the module offers is bound in order. |
| `Tokenizer.ParseLines` | compiler/tokenize.cpp:51-85 | Fails exactly when there is a tab; otherwise the lines are exactly the places after a newline or at the beginning, in order, with their indentation. |
| `Tokenizer.GetLocation` | compiler/tokenize.cpp:87-95 | The line of an offset is the number of newlines before it, and line start plus column is the offset. |
| `Tokenizer.Scan` | compiler/tokenize.cpp:97-108 | The longest run of characters of the class. |
| `Tokenizer.ParseTokens` | compiler/tokenize.cpp:110-161 | The loop gives the tokens of the whole text, or the offset of the first unknown character. |
| `Tokenizer.ParseToken` | compiler/tokenize.cpp:120-157 | One step of the loop: a token, or nothing for a space or a comment. |
| `Tokenizer.LexOk` | compiler/tokenize.cpp:110-161 | Every token's text is in its class and as long as possible, and tokens are ordered and do not overlap. |
| `Tokenizer.LexExact` | compiler/tokenize.cpp:110-161 | Lexing gives a token list if and only if it is the list of the tokens of the text: each is as long as its class allows, they are in order and apart, everything between them is space or comment, and none starts inside a comment. |
| `Tokenizer.Classes` | compiler/tokenize.cpp:9-49 | The character classes by their codes. |
| `Tokenizer.MatchBrackets` | compiler/tokenize.cpp:170-206 | The loop with its stack gives the first error of the check, or none. |
| `Tokenizer.CheckExact` | compiler/tokenize.cpp:170-206 | The bracket check accepts exactly the token lists that are well nested over (), [] and {}. |
| `Tokenizer.VerdictExactly` | compiler/tokenize.cpp:170-206 | An error names the right brackets: a closing one before which all is nested, a closing and an opening one of another shape with all nested between them, or an opening one after which all is nested. |
| `Tokenizer.BracketPairs` | compiler/tokenize.cpp:163-168 | Each closing bracket goes with its own opening one only. |
| `Tokenizer.InsertNewline` | compiler/tokenize.cpp:224-240 | A line token after every token whose line ends there and is not continued, and one at the end. |
| `Tokenizer.NewlinesOnly` | compiler/tokenize.cpp:208-240 | Without the line tokens the list is what it was: nothing is dropped, added or reordered. |
| `Tokenizer.LinesExactly` | compiler/tokenize.cpp:208-240 | Every token is followed by an empty line token at its end if the next one is on a later line, unless it is an operator other than > or an opening bracket, and directly by the next one otherwise; the last one is followed by a line token. |
| `Tokenizer.Tokenize` | compiler/tokenize.cpp:242-267 | The error outcomes are the tab, the first character that starts nothing, and bad nesting with the brackets it is about, each in exactly the stated case; otherwise every token carries its right location and the brackets are well nested. |
| `Tokenizer.Locate` | compiler/tokenize.cpp:247-260 | Every token gets the location of its own offset and length. |

## Left out

- Unify.UnifyEquates: one direction only, for tables that need not be acyclic; the exact condition, for tables that are, is `Acyclic.UnifyEquatesExactly`.
- GcHeap.Heap.Malloc: a collection is a step of its own that may come between any two operations; the heuristics that decide when the allocator starts one, and the accounting they use, are not modelled.
- GcHeap.Heap.Fresh: whether memory can be made accessible is a parameter; after a failed request the invariant is promised only while the free pointer is inside the slot.
- GcHeap.Heap.Mark: roots are given as ranges, the address arithmetic on the scanned ranges is not bounded by 64 bits, and the size of the mark stack is not limited.
- GcHeap.Heap.SweepRegion: what the system does with memory given back is not modelled, only which ranges are given back.
- ModuleSort.Sort: stops when a report repeats, where the loop of the code would go on for ever; the alphabetical order of the modules is an input.
- Mark memory: getting it always succeeds; returning its pages to the system instead of zeroing them is modelled by its effect on the bits, and zeroing stops at the end of the buffer.
- Memory of the collector: a map from addresses to words; reading and writing parts of words is not modelled, and `GC_realloc`'s copy, root registration, timing, debug output and stack scanning are left out.
- Signed multiplication: the multiply instruction of the collector is signed; both factors are below 2^63 for every region and reserved address, so the model uses the unsigned product.
- Aggregates in code generation: strings, tuples, struct and array literals, members, floats, variable arguments and function values with captured state; they add straight-line code only.
- Stack slots: a declared variable is a slot of its own name instead of an alloca in the entry block; recursion of the lowered function itself goes through the external function.
- Called functions: any external function that returns a value and a memory, or traps; a call that never returns is not modelled. Operations on values of the wrong type are total and agree on both sides.
- Layout of blocks in the function, LLVM types, debug information, inline assembly, optimisation and linking.
- Evaluation counts iterations of while loops down from an allowance; the theorems quantify over it.
- Struct and array literals, type arguments, control flow, declarations and number literals in the parser: such tokens make the modelled parser fail, and error messages are not modelled. The lowering of operators to calls of named functions is left out; the tree keeps the operator.
- Types: source locations, names for messages, generic types outside uses of a parameter, overloads, and the loop of the type checker that calls unification.
- Acyclic tables: rewriting takes a ranking of the unknowns as a hypothesis; `Acyclic.UnifyAcyclic` says when unification keeps one.
- Mangled names of type information; the names of external functions and of a module's entry, which are not mangled.
- Locations and duplicate entries of imports, and which of several cycles the search names first beyond what is stated.
- Coroutines: stacks, contexts and the functions run are not modelled; a context switch is a step between worker and coroutine.
- Name resolution: members, error messages, the module lookup of an import, whose offers stand in the node (a module's automatic imports are such nodes), and identifiers resolved before.
- Tokens: error messages, character encoding, and joining locations.
