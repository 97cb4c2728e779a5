# Verified models of the embedded Lua 5.1 runtime

The repository embeds a Lua 5.1 runtime and uses a converter between UTF-16
and UTF-8.  This project models the parts of them whose correctness is hardest
to see, and proves for each what it is for.  Code that works in place is a
class or a method over arrays, with the fields and the loops of the source, and
is proved against a function; what the source promises is proved about that
function.

* **Collector** (`Collector*.dfy`): the incremental tri-colour collector as a
  state machine, interleaved with a mutator.  `CollectorMutator.RunSafety` is
  safety over every run; `CollectorFull.FullGCExact` says what a full collection
  frees, from any state, and `CollectorProgress.StepsCollect` that single steps
  by themselves come to the same.
* **Code generator, interpreter, parser** (`LuaCode*.dfy`, `LuaJumps.dfy`,
  `LuaGenerator.dfy`, `LuaVM.dfy`, `LuaExecute.dfy`, `LuaParser.dfy`,
  `LuaProgram.dfy`): conditions as jump lists threaded through the code, proved
  to preserve meaning on sets of open jumps (`LuaCodeCompile`), refined by the
  generator that links them through the offsets of the jumps (`LuaGenerator`),
  run by the interpreter loop, and composed with the parser
  (`LuaProgram.EvaluateText`).
* **Tables** (`Table*.dfy`): array part and chained scatter table with Brent's
  variation, refining a map; rehash, traversal and length.
* **Pattern matching** (`LuaPattern*.dfy`, `LuaMatch.dfy`): the backtracking
  matcher against a declarative preference among repetition counts, the reading
  of patterns as the inverse of their printing, and what each construct matches
  in character codes and places (`LuaPatternLaws`).
* **Binary chunks** (`Chunk*.dfy`): writer and reader over a stream that is cut
  in any way.
* **Quoting and reading strings** (`LuaQuote.dfy`, `LuaStringText.dfy`), **sorting** (`LuaSort.dfy`),
  **upvalues** (`LuaUpvals.dfy`, `LuaFunc.dfy`), **references** (`LuaRefs.dfy`)
  and **UTF conversion** (`UTFConvert.dfy`).

Where code and documentation differ, the model follows the code:

* A chunk without debug stripping loads to the same tree only if every function
  in it has a source; the writer's encoding of an inherited source and the
  reader's default name `=?` make up for one another only then
  (`Chunk.ChunkRoundTrip`).
* `read_string` undoes `addquoted` only as long as the line number stays below
  MAX_INT (`LuaQuote.QuoteRoundTrip`).
* `string.find` takes a pattern without the characters `^$*+?.([%-` for plain
  text.  This is not quite the pattern's meaning: `)` in such a pattern is found
  by `find` and an error for `match`, and a NUL ends a pattern but not a plain
  text (`LuaPatternLaws.PlainAgrees`).
* The UTF-8 reader accepts some ill-formed input: the loop over the following
  bytes leaves only itself at the end of the text or at a byte that does not
  belong (`UTFConvert.DecodesExactly`, `UTFConvert.SucceedsExactly`).
* The public conversions set the length of their result by its first zero, so a
  text with an embedded zero is cut there (`UTFConvert.PublicRoundTrip`).

## Model

| member | source | states |
|---|---|---|
| CollectorMutator.RunSafety | Lwdp/code/LwApiLib/ComLib/lua/lgc.c:556-606 | In every run that interleaves single collector steps with allocation, interning, barriered stores, thread switches, metatable, registry and string-table changes, the invariant holds in every state, every object reachable from the roots is in the heap, and during propagation no black object points to a white one while the two work lists hold exactly the pending gray objects, each once; and each event has its effect: a store replaces the contents, an allocation or interning leaves its object reachable on the stack, and nothing else that the mutator reads changes |
| CollectorMutator.SingleStepKeeps | Lwdp/code/LwApiLib/ComLib/lua/lgc.c:556-606 | A step of the collector, in whichever of its five states, keeps the invariant and the roots, frees nothing reachable, and every reachable object reads as before: the metatable, array part, values and keys of a table, the global table and the stack up to the top of a thread, and all of any other object; only the key of a nil entry may have been marked dead |
| CollectorMutator.EventDoes | Lwdp/code/LwApiLib/ComLib/lua/lgc.c:661-707 | Every event, in any state, does what it is there for: a store replaces the contents of its object and no other, a new or interned object ends on the running thread's stack with everything else as it was |
| CollectorMutator.BarrierDoes | Lwdp/code/LwApiLib/ComLib/lua/lgc.c:661-682 | When a barrier fires, a table turns gray and joins the grayagain list; behind any other object the target is marked while propagating, and otherwise the object itself turns white; then the barrier does not fire again |
| CollectorMutator.StoreKeeps | Lwdp/code/LwApiLib/ComLib/lua/lgc.c:661-682 | Overwriting the contents of a reachable object with at most one new reference, followed by the forward barrier or, for tables, the back barrier, keeps the invariant in every collector state |
| CollectorMutator.BarrierAsserts | Lwdp/code/LwApiLib/ComLib/lua/lgc.c:661-682 | Whenever a barrier macro calls the collector, what the functions assert holds: neither object is dead, and the state is neither pause nor finalize |
| CollectorMutator.AllocKeeps | Lwdp/code/LwApiLib/ComLib/lua/lgc.c:685-691 | Linking a new object in the current white, and pushing it, keeps the invariant in every collector state, also in the middle of a sweep |
| CollectorMutator.InternKeeps | Lwdp/code/LwApiLib/ComLib/lua/lstring.c:75-95 | Finding an interned string, and bringing it back to life if it is dead but not yet swept, keeps the invariant |
| CollectorMutator.NewStateInv | Lwdp/code/LwApiLib/ComLib/lua/lstate.c:144-190 | A new state, with its fixed main thread and nothing else, meets the invariant in the pause state |
| CollectorInvariant.MarkObjectMarks | Lwdp/code/LwApiLib/ComLib/lua/lgc.c:69-112 | Marking an object turns it and what hangs below it from white to gray or black without touching anything else: tables, closures, threads and prototypes are queued once each, strings are gray and not queued, userdata and closed upvalues are black with nothing white below them |
| CollectorInvariant.PropagateMarkKeeps | Lwdp/code/LwApiLib/ComLib/lua/lgc.c:277-320 | Traversing one gray object keeps the tri-colour and work-list invariants; the object ends with no white reference, nothing marked becomes white again, and every object, field by field, reads as before |
| CollectorInvariant.KidsReadable | Lwdp/code/LwApiLib/ComLib/lua/lgc.c:158-271 | Marking follows exactly the references that a program can read: those in the fields of the object, but for entries whose value is nil and stack slots above the top |
| CollectorInvariant.RootsReadable | Lwdp/code/LwApiLib/ComLib/lua/lgc.c:493-540 | The roots are the main thread, the running thread, the registry and the metatables of the basic types |
| CollectorSafety.PropagateAllKeeps | Lwdp/code/LwApiLib/ComLib/lua/lgc.c:323-327 | Running propagatemark until the gray list is empty ends, and keeps the invariants and every mark |
| CollectorSafety.MarkRootKeeps | Lwdp/code/LwApiLib/ComLib/lua/lgc.c:501-512 | Starting a cycle on an all-white heap establishes the marking invariant, with the main thread, the registry and the metatables of the basic types marked |
| CollectorSafety.AtomicMarkCloses | Lwdp/code/LwApiLib/ComLib/lua/lgc.c:525-545 | After the marking part of atomic, with the list of grayagain objects traversed once more, the marked objects contain all roots and are closed under every reference |
| CollectorSafety.AtomicKeeps | Lwdp/code/LwApiLib/ComLib/lua/lgc.c:525-553 | After atomic, with the whites flipped, exactly the marked objects are live, and the sweeping invariant holds |
| CollectorSafety.SweepSeqSpec | Lwdp/code/LwApiLib/ComLib/lua/lgc.c:407-428 | sweeplist removes exactly the erasable objects of a list, unlinks them and no others, gives the rest the current white, and touches nothing outside the list |
| CollectorSafety.SweepStringKeeps | Lwdp/code/LwApiLib/ComLib/lua/lgc.c:574-582 | Sweeping one bucket of the string table keeps the invariant and every live object with its contents |
| CollectorSafety.SweepStringLooksAt | Lwdp/code/LwApiLib/ComLib/lua/lgc.c:574-582 | Such a step frees exactly the erasable strings of its bucket, whitens the others there, and changes no other object |
| CollectorSafety.SweepStepLooksAt | Lwdp/code/LwApiLib/ComLib/lua/lgc.c:584-594 | A step on rootgc looks at the next 40 objects, or all that are left: it frees exactly the erasable ones, whitens the others, and does not touch what stands behind them |
| CollectorSafety.SweepStepKeeps | Lwdp/code/LwApiLib/ComLib/lua/lgc.c:584-594 | Sweeping at most GCSWEEPMAX objects of rootgc keeps the invariant and every live object with its contents |
| CollectorFull.FinishSweepExact | Lwdp/code/LwApiLib/ComLib/lua/lgc.c:574-594 | A sweep run to its end removes every erasable object, no other, and leaves the current white on the rest |
| CollectorFull.MarkPhaseExact | Lwdp/code/LwApiLib/ComLib/lua/lgc.c:501-553 | A cycle begun on an all-white heap ends its marking with exactly the reachable objects live |
| CollectorFull.FullGCExact | Lwdp/code/LwApiLib/ComLib/lua/lgc.c:635-658 | Called in any collector state, a full collection ends in pause with exactly those objects still in the heap that were reachable at the call or are fixed, each with the current white, and the reachable ones reading as before |
| CollectorProgress.StepsPause | Lwdp/code/LwApiLib/ComLib/lua/lgc.c:556-606 | From any state of the collector some number of single steps leads to the pause |
| CollectorProgress.StepsCollect | Lwdp/code/LwApiLib/ComLib/lua/lgc.c:556-606 | From any state some number of single steps, by themselves, ends in the pause with exactly those objects of the beginning still in the heap that were reachable or are fixed, and the reachable ones reading as before |
| CollectorMachine.GlobalState.ReallyMarkObject | Lwdp/code/LwApiLib/ComLib/lua/lgc.c:69-112 | The in-place marking function changes the marks and the gray list to exactly what the marking specification computes, and nothing else |
| CollectorMachine.GlobalState.TraverseTable | Lwdp/code/LwApiLib/ComLib/lua/lgc.c:158-196 | Traversing the metatable, array part and nodes in place, and clearing dead keys, amounts to marking the references of the table in order, and writing back the table with the collectable keys of its nil entries marked dead; the table reads as before |
| CollectorMachine.GlobalState.TraverseProto | Lwdp/code/LwApiLib/ComLib/lua/lgc.c:203-221 | The same for the source, constants, nested prototypes and names of a prototype |
| CollectorMachine.GlobalState.TraverseClosure | Lwdp/code/LwApiLib/ComLib/lua/lgc.c:224-238 | The same for the environment and the upvalues of a C or Lua closure |
| CollectorMachine.GlobalState.TraverseStack | Lwdp/code/LwApiLib/ComLib/lua/lgc.c:256-271 | The same for a thread: the global table and the stack up to the top are marked, and the slots above it are set to nil; the thread reads as before |
| CollectorMachine.GlobalState.PropagateMarkStep | Lwdp/code/LwApiLib/ComLib/lua/lgc.c:277-320 | The in-place propagatemark is its specification, and every object reads as before |
| CollectorMachine.GlobalState.MarkRoots | Lwdp/code/LwApiLib/ComLib/lua/lgc.c:501-512 | The in-place markroot is its specification |
| CollectorMachine.GlobalState.AtomicStep | Lwdp/code/LwApiLib/ComLib/lua/lgc.c:525-553 | The in-place atomic is its specification |
| CollectorMachine.GlobalState.SweepList | Lwdp/code/LwApiLib/ComLib/lua/lgc.c:407-428 | The loop that unlinks and frees while it walks a list is its specification |
| CollectorMachine.GlobalState.Step | Lwdp/code/LwApiLib/ComLib/lua/lgc.c:556-606 | The in-place singlestep is its specification, in all five states, and all that is reachable reads as before |
| CollectorMachine.GlobalState.FullCollect | Lwdp/code/LwApiLib/ComLib/lua/lgc.c:635-658 | The in-place luaC_fullgc ends in the pause and is its specification: exactly the reachable and the fixed objects are left, and the reachable ones read as before |
| CollectorMachine.GlobalState.BarrierF | Lwdp/code/LwApiLib/ComLib/lua/lgc.c:661-671 | The forward barrier marks the target while propagating, and otherwise whitens the source |
| CollectorMachine.GlobalState.BarrierB | Lwdp/code/LwApiLib/ComLib/lua/lgc.c:674-682 | The back barrier turns the table gray and puts it on the grayagain list |
| CollectorMachine.GlobalState.StoreInto | Lwdp/code/LwApiLib/ComLib/lua/lgc.c:661-682 | A store in place into an object that the mutator reaches, followed by the barrier that the kind of the object asks for, is its specification, and keeps the invariant |
| CollectorMachine.GlobalState.Allocate | Lwdp/code/LwApiLib/ComLib/lua/lgc.c:685-691 | luaC_link in place is its specification, and keeps the invariant |
| LuaCode.AddKShares | Lwdp/code/LwApiLib/ComLib/lua/lcode.c:229-247 | addk shares a constant that is there and puts a new one last |
| LuaCodeExec.RedirectExec | Lwdp/code/LwApiLib/ComLib/lua/lcode.c:80-92 | Patching pending jumps redirects exactly the runs that leave the code through them, and they go on at the target with the register that the test sets; all other runs are as before |
| LuaCodeReg.FinishDen | Lwdp/code/LwApiLib/ComLib/lua/lcode.c:395-409 | When the jumps of an expression are patched, with the false/true loads added if an exit produces no value, every way through the code ends just behind it with the value of the expression in the target register |
| LuaCodeReg.Exp2RegDen | Lwdp/code/LwApiLib/ComLib/lua/lcode.c:390-411 | exp2reg leaves the value of the expression in the register, with no open exits, whatever its descriptor was |
| LuaCodeUse.Exp2NextRegDen | Lwdp/code/LwApiLib/ComLib/lua/lcode.c:414-419 | luaK_exp2nextreg puts the value into the first register that was free when the expression began |
| LuaCodeUse.Exp2AnyRegDen | Lwdp/code/LwApiLib/ComLib/lua/lcode.c:422-433 | luaK_exp2anyreg ends with a register that holds the value |
| LuaCodeUse.Exp2ValDen | Lwdp/code/LwApiLib/ComLib/lua/lcode.c:436-441 | luaK_exp2val ends with a descriptor without open exits that still denotes the value |
| LuaCodeUse.Exp2RKDen | Lwdp/code/LwApiLib/ComLib/lua/lcode.c:444-469 | luaK_exp2RK ends with a register or a constant that stands for the value |
| LuaCodeCond.JumpOnCondSplits | Lwdp/code/LwApiLib/ComLib/lua/lcode.c:524-536 | jumponcond leaves through its new jump exactly if the value has the wanted truth, also when it takes back a NOT and tests the operand |
| LuaCodeCond.GoIfTrueSplits | Lwdp/code/LwApiLib/ComLib/lua/lcode.c:539-560 | After luaK_goiftrue the code goes on exactly if the value is true, and all other runs leave through the false list |
| LuaCodeCond.GoIfFalseSplits | Lwdp/code/LwApiLib/ComLib/lua/lcode.c:563-583 | After luaK_goiffalse the code goes on exactly if the value is false, and all other runs leave through the true list |
| LuaCodeNot.CodeNotDen | Lwdp/code/LwApiLib/ComLib/lua/lcode.c:586-618 | codenot turns code for an expression into code for its negation, with the two lists exchanged and the values removed from their tests |
| LuaCodeCompile.JoinDen | Lwdp/code/LwApiLib/ComLib/lua/lcode.c:739-751 | luaK_posfix for and/or joins the exits of the first operand to those of the second, and the result denotes the conjunction or disjunction with Lua's values |
| LuaCodeCompile.CodeCompDen | Lwdp/code/LwApiLib/ComLib/lua/lcode.c:673-686 | codecomp denotes the comparison; for > and >= the operands are exchanged; registers and order of evaluation are as in the source |
| LuaCodeCompile.CompileDen | Lwdp/code/LwApiLib/ComLib/lua/lcode.c:689-781 | For every expression over nil, booleans, strings, numbers, locals, upvalues, comparisons, not, and, or and parentheses, the code emitted and its descriptor denote the expression: every run through the code ends as the value requires, with all active locals unchanged |
| LuaCodeCompile.CompilePreservesMeaning | Lwdp/code/LwApiLib/ComLib/lua/lcode.c:414-419 | Expression compiled to the next register: a run that reached the end of the earlier code goes on to the end of the new code with the value in that register, all registers below it unchanged and no new open jump; it fails exactly if a comparison of the expression does |
| LuaCodeCompile.CompileAtLabel | Lwdp/code/LwApiLib/ComLib/lua/lcode.c:94-97 | At a label the code of the expression computes its value from the registers at the label |
| LuaCodeCompile.ConditionMeaning | Lwdp/code/LwApiLib/ComLib/lua/lcode.c:539-560 | An expression as a condition: the code falls through exactly if the value is true, and leaves through the false list otherwise, with the locals unchanged |
| LuaJumps.ChainUnique | Lwdp/code/LwApiLib/ComLib/lua/lcode.c:100-106 | A list threaded through the offsets determines the jumps on it, in order, so it has no cycle |
| LuaJumps.ChainConcat | Lwdp/code/LwApiLib/ComLib/lua/lcode.c:185-196 | Writing the head of one list into the last jump of another yields the list of both |
| LuaJumps.PatchedStep | Lwdp/code/LwApiLib/ComLib/lua/lcode.c:131-160 | One step of patchlistaux sends a jump whose test produces a value to vtarget and any other to dtarget, rewrites only the TESTSET that controls it, and leaves the other lists alone |
| LuaGenerator.FuncState.FixJump | Lwdp/code/LwApiLib/ComLib/lua/lcode.c:80-88 | fixjump changes the offset of one jump, and nothing else of the code as it is meant |
| LuaGenerator.FuncState.Concat | Lwdp/code/LwApiLib/ComLib/lua/lcode.c:185-196 | luaK_concat yields the union of two disjoint lists; only jumps of the first change, and only in their link |
| LuaGenerator.FuncState.PatchListAux | Lwdp/code/LwApiLib/ComLib/lua/lcode.c:150-160 | The walk over a list ends, and patches exactly its jumps: those of value-producing tests to vtarget, the others to dtarget |
| LuaGenerator.FuncState.DischargeJpc | Lwdp/code/LwApiLib/ComLib/lua/lcode.c:163-166 | dischargejpc sends all jumps to the current position to it, and empties jpc |
| LuaGenerator.FuncState.Code | Lwdp/code/LwApiLib/ComLib/lua/lcode.c:789-801 | luaK_code discharges jpc and appends one instruction |
| LuaGenerator.FuncState.Jump | Lwdp/code/LwApiLib/ComLib/lua/lcode.c:59-66 | luaK_jump appends a jump and merges the jumps to here with it, so that they end where it will |
| LuaGenerator.FuncState.PatchToHere | Lwdp/code/LwApiLib/ComLib/lua/lcode.c:179-182 | The jumps of a list join those that go to the next instruction |
| LuaGenerator.FuncState.PatchList | Lwdp/code/LwApiLib/ComLib/lua/lcode.c:169-176 | luaK_patchlist sends a list to a target, or, if that is the current position, to the next instruction |
| LuaGenerator.FuncState.RemoveValues | Lwdp/code/LwApiLib/ComLib/lua/lcode.c:144-147 | removevalues turns the TESTSETs of a list into TESTs and changes nothing else |
| LuaGenerator.FuncState.Exp2Reg | Lwdp/code/LwApiLib/ComLib/lua/lcode.c:390-411 | exp2reg in place, on lists threaded through the code, is its specification; no jump outside the descriptor is touched |
| LuaGenerator.FuncState.GoIfTrue | Lwdp/code/LwApiLib/ComLib/lua/lcode.c:539-560 | luaK_goiftrue in place is its specification |
| LuaGenerator.FuncState.GoIfFalse | Lwdp/code/LwApiLib/ComLib/lua/lcode.c:563-583 | luaK_goiffalse in place is its specification |
| LuaGenerator.FuncState.CodeNot | Lwdp/code/LwApiLib/ComLib/lua/lcode.c:586-618 | codenot in place is its specification |
| LuaGenerator.FuncState.CodeComp | Lwdp/code/LwApiLib/ComLib/lua/lcode.c:673-686 | codecomp in place is its specification |
| LuaGenerator.FuncState.Infix | Lwdp/code/LwApiLib/ComLib/lua/lcode.c:710-734 | luaK_infix in place is its specification |
| LuaGenerator.FuncState.Posfix | Lwdp/code/LwApiLib/ComLib/lua/lcode.c:737-781 | luaK_posfix in place is its specification |
| LuaGenerator.FuncState.Compile | Lwdp/code/LwApiLib/ComLib/lua/lparser.c:667-771 | Driving the generator over an expression in the parser's order is the specification |
| LuaGenerator.FuncState.CompileToNextReg | Lwdp/code/LwApiLib/ComLib/lua/lcode.c:414-419 | The in-place generator, for an expression to the next register, is its specification; the open jumps are those from before, untouched |
| LuaExecute.Machine.Execute | Lwdp/code/LwApiLib/ComLib/lua/lvm.c:377-585 | The interpreter loop on encoded jumps does what the stepped semantics says, until it reaches a given position, leaves the stretch, or fails; covers MOVE, LOADK, LOADBOOL, LOADNIL, GETUPVAL, NOT, JMP, EQ, LT, LE, TEST and TESTSET |
| LuaProgram.CompileAndExecute | Lwdp/code/LwApiLib/ComLib/lua/lcode.c:414-419 | End to end: the in-place generator emits code for an expression, the interpreter runs it, and the value is in the first free register with all lower registers unchanged; or both fail |
| LuaProgram.EvaluateText | Lwdp/code/LwApiLib/ComLib/lua/lparser.c:828-858 | From tokens to a value: the text is parsed, compiled and run, and the register gets the value that the manual's rules for not, and, or and the comparisons give the tree that its precedences give the text |
| LuaProgram.LowerValue | Lwdp/code/LwApiLib/ComLib/lua/lparser.c:787-807 | What the generator is given for a tree of the parser has the value of that tree by the manual's rules |
| LuaProgram.LeafValues | Lwdp/code/LwApiLib/ComLib/lua/lparser.c:715-760 | A literal stands for itself, a local for its register and an upvalue for its value |
| LuaProgram.StripValue | Lwdp/code/LwApiLib/ComLib/lua/lparser.c:670-677 | Parentheses do not change the value of an expression that is not a multiple result |
| Table.Table.Find | Lwdp/code/LwApiLib/ComLib/lua/ltable.c:469-489 | The walk along a chain from the main position ends, and finds a node with the key if there is one anywhere in the node vector |
| Table.Table.Get | Lwdp/code/LwApiLib/ComLib/lua/ltable.c:469-489 | luaH_get agrees with the map that the table stands for: the value of the key, nil if it has none |
| Table.Table.Put | Lwdp/code/LwApiLib/ComLib/lua/ltable.c:494-505 | luaH_set with a store is an assignment to that map, for every key but nil, which is refused; it can fail only on a table with 2^26 values, and keeps the layout when the key has a slot |
| Table.Table.GetFreePos | Lwdp/code/LwApiLib/ComLib/lua/ltable.c:382-388 | getfreepos gives a node without a key, all nodes above which have keys, or fails, and then the vector is full |
| Table.Table.FindPrevious | Lwdp/code/LwApiLib/ComLib/lua/ltable.c:411-413 | The walk to the predecessor of the colliding node ends, at a node that links to it |
| Table.Table.MoveColliding | Lwdp/code/LwApiLib/ComLib/lua/ltable.c:409-418 | Moving a colliding node out of a foreign main position keeps chains acyclic with one predecessor per node, and every key reachable from its main position |
| Table.Table.ChainNew | Lwdp/code/LwApiLib/ComLib/lua/ltable.c:419-424 | Chaining the new key behind its main position keeps the same |
| Table.Table.TakeMain | Lwdp/code/LwApiLib/ComLib/lua/ltable.c:399-402 | Reusing a main position without a value keeps the same, also when another chain runs through it |
| Table.Table.NewKey | Lwdp/code/LwApiLib/ComLib/lua/ltable.c:399-429 | newkey gives the key a slot and changes no binding; with room at hand it does not rehash |
| Table.Table.SetSlot | Lwdp/code/LwApiLib/ComLib/lua/ltable.c:494-505 | Insertion ends: at depth 0, as called from resize and for the new key after a rehash, no second rehash happens; otherwise at most one |
| Table.Table.Rehash | Lwdp/code/LwApiLib/ComLib/lua/ltable.c:333-349 | rehash keeps the map, gives the array part the optimal size for the keys with the new one, and leaves room for it |
| Table.Table.Resize | Lwdp/code/LwApiLib/ComLib/lua/ltable.c:297-324 | resize to sizes that fit the keys keeps the map, and re-inserts without another rehash |
| Table.Table.ResizeArray | Lwdp/code/LwApiLib/ComLib/lua/ltable.c:327-330 | luaH_resizearray keeps the map |
| Table.Table.Next | Lwdp/code/LwApiLib/ComLib/lua/ltable.c:162-182 | luaH_next yields the first entry with a value behind the given key, the end, or an error exactly for a key that is nowhere in the table |
| Table.Table.Traverse | Lwdp/code/LwApiLib/ComLib/lua/ltable.c:137-182 | A traversal from nil, with any assignments to existing keys between the calls, finds no key twice, finds each key that has a value at every call, and ends; the layout stays |
| Table.StandIncreases | Lwdp/code/LwApiLib/ComLib/lua/ltable.c:162-182 | Each call moves on to a later place, so no key comes up twice |
| Table.TraversalEnds | Lwdp/code/LwApiLib/ComLib/lua/ltable.c:162-182 | The end comes after at most as many calls as there are places, and one |
| Table.Table.UnboundSearch | Lwdp/code/LwApiLib/ComLib/lua/ltable.c:532-557 | unbound_search ends, also when doubling passes the largest integer, at a boundary |
| Table.Table.GetN | Lwdp/code/LwApiLib/ComLib/lua/ltable.c:560-576 | luaH_getn returns a boundary: it is 0 or has a value, and the next integer has none |
| TableLinks.MoveOK | Lwdp/code/LwApiLib/ComLib/lua/ltable.c:411-417 | On node vectors: relinking the moved node keeps acyclicity, single predecessors and reachability from main positions, for every main-position function |
| TableLinks.LinkInOK | Lwdp/code/LwApiLib/ComLib/lua/ltable.c:420-423 | On node vectors: linking a free node behind the main position keeps the same |
| TableLinks.TakeOK | Lwdp/code/LwApiLib/ComLib/lua/ltable.c:425-427 | On node vectors: replacing the key of a node without value keeps the same |
| TableSizes.Log2 | Lwdp/code/LwApiLib/ComLib/lua/lobject.c:54-69 | luaO_log2 is the floor of the binary logarithm, and -1 for 0 |
| TableSizes.CeilLog2 | Lwdp/code/LwApiLib/ComLib/lua/ltable.c:280-284 | ceillog2 is the least exponent whose power is not below the number |
| TableSizes.CountInt | Lwdp/code/LwApiLib/ComLib/lua/ltable.c:211-219 | countint counts an integer key in the slice it belongs to, and no other key |
| TableSizes.NumUseArray | Lwdp/code/LwApiLib/ComLib/lua/ltable.c:222-244 | The slice counts of the array part are those of its keys, and their sum is returned |
| TableSizes.NumUseHash | Lwdp/code/LwApiLib/ComLib/lua/ltable.c:247-260 | The slice counts and totals of the node part are those of its keys with values |
| TableSizes.ComputeSizes | Lwdp/code/LwApiLib/ComLib/lua/ltable.c:189-208 | computesizes returns the largest power of two n, or 0, such that more than half of 1..n are keys, and how many are, although it skips empty slices and stops early; it never indexes past nums |
| LuaPatternMeaning.SearchIsFirst | Lwdp/code/LwApiLib/ComLib/lua/lstrlib.c:365-440 | The result of the backtracking search is that of a choice of repetition counts preferred to every other that gives a result, with longest preferred for * and +, shortest for -, and one before none for ? |
| LuaPatternMeaning.SearchDecides | Lwdp/code/LwApiLib/ComLib/lua/lstrlib.c:365-440 | The search fails exactly if no choice of repetition counts gives a match, and gives the preferred result if there is one |
| LuaPatternMeaning.PreferredTotal | Lwdp/code/LwApiLib/ComLib/lua/lstrlib.c:301-326 | Any two choices that give something are ordered, so the preferred one is unique |
| LuaMatch.NoError | Lwdp/code/LwApiLib/ComLib/lua/lstrlib.c:186-223 | A well-formed pattern raises no error, whatever the subject, and leaves no capture unfinished |
| LuaMatch.MatchState.DoMatch | Lwdp/code/LwApiLib/ComLib/lua/lstrlib.c:365-440 | match, with captures updated in place, ends with the result of the search; on failure the level and the captures are those from before the call |
| LuaMatch.MatchState.MaxExpand | Lwdp/code/LwApiLib/ComLib/lua/lstrlib.c:301-313 | max_expand tries the longest run first, then one less each time, restoring the captures |
| LuaMatch.MatchState.MinExpand | Lwdp/code/LwApiLib/ComLib/lua/lstrlib.c:316-326 | min_expand tries the shortest run first |
| LuaMatch.MatchState.StartCapture | Lwdp/code/LwApiLib/ComLib/lua/lstrlib.c:329-340 | start_capture opens a capture, and takes it back if the rest does not match |
| LuaMatch.MatchState.EndCapture | Lwdp/code/LwApiLib/ComLib/lua/lstrlib.c:343-351 | end_capture closes the last open capture, and reopens it if the rest does not match |
| LuaMatch.MatchState.MatchBalance | Lwdp/code/LwApiLib/ComLib/lua/lstrlib.c:281-298 | matchbalance finds the first place where the nesting of the two delimiters comes back to zero, or none exactly if there is none |
| LuaMatch.MatchBracketClass | Lwdp/code/LwApiLib/ComLib/lua/lstrlib.c:245-265 | The scan of a bracket class, with its complement, ranges and classes, accepts a character exactly if the set it stands for contains it |
| LuaMatch.LMemFind | Lwdp/code/LwApiLib/ComLib/lua/lstrlib.c:444-466 | lmemfind returns the leftmost occurrence, or none exactly if there is none |
| LuaMatch.StrFindAux | Lwdp/code/LwApiLib/ComLib/lua/lstrlib.c:495-535 | string.find and string.match return the leftmost start, from the normalised initial position, at which the pattern matches, with the result of the match there; for a pattern without specials, the leftmost occurrence |
| LuaPatternText.PatternRoundTrip | Lwdp/code/LwApiLib/ComLib/lua/lstrlib.c:199-440 | A pattern printed from any list of items, classes and sets of members with their suffixes, captures, %b, %f, back references and a final $, is read back as just these items |
| LuaPatternLaws.ClassFinds | Lwdp/code/LwApiLib/ComLib/lua/lstrlib.c:226-278 | For a class by itself, or a set of ranges, characters and classes, also negated, string.find and string.match return the leftmost character from the start on that is in the set of codes that the class stands for: the ten letters, their complements by the capital letter, and any other character for itself; the start is counted from 1, or from the end |
| LuaPatternLaws.AnchorFinds | Lwdp/code/LwApiLib/ComLib/lua/lstrlib.c:515-533 | With ^ only the start itself is tried |
| LuaPatternLaws.EndResult | Lwdp/code/LwApiLib/ComLib/lua/lstrlib.c:410-414 | A final $ holds at the end of the subject only |
| LuaPatternLaws.RepResult | Lwdp/code/LwApiLib/ComLib/lua/lstrlib.c:301-326 | A class with *, +, - or ? before another class matches up to the greatest place, for - the least, where the second class follows a run of the first that the suffix allows, and fails exactly if there is none |
| LuaPatternLaws.CaptureFinds | Lwdp/code/LwApiLib/ComLib/lua/lstrlib.c:329-351 | Parentheses around a class capture the character it matched, for both functions |
| LuaPatternLaws.PositionFinds | Lwdp/code/LwApiLib/ComLib/lua/lstrlib.c:365-371 | () captures the position, counted from 1 |
| LuaPatternLaws.BackRefResult | Lwdp/code/LwApiLib/ComLib/lua/lstrlib.c:354-362 | (.)%1 matches two equal characters |
| LuaPatternLaws.CaptureLimit | Lwdp/code/LwApiLib/ComLib/lua/lstrlib.c:329-333 | The error for too many captures comes with the 33rd |
| LuaPatternLaws.BalanceResult | Lwdp/code/LwApiLib/ComLib/lua/lstrlib.c:281-298 | %bxy ends at the first place up to which there are as many y as x, and %bxx at the next x |
| LuaPatternLaws.FrontierResult | Lwdp/code/LwApiLib/ComLib/lua/lstrlib.c:385-396 | %f holds between a character outside of the set and one inside, with NULs beyond the ends |
| LuaPatternLaws.MalformedResult | Lwdp/code/LwApiLib/ComLib/lua/lstrlib.c:186-223 | A pattern that ends in a single %, an open set, %b without its two characters, %f without a set, a closing parenthesis without an opening one, and a reference to a capture that is not there or not finished are errors, on every subject |
| LuaPatternLaws.UnfinishedFinds | Lwdp/code/LwApiLib/ComLib/lua/lstrlib.c:469-486 | A capture that is not closed is an error once the pattern has matched |
| LuaPatternLaws.PlainAgrees | Lwdp/code/LwApiLib/ComLib/lua/lstrlib.c:502-513 | The plain search that string.find makes of a pattern without special characters gives the outcome of the pattern, on every subject, exactly if the pattern has neither a closing parenthesis nor a NUL |
| Chunk.FunctionRound | Lwdp/code/LwApiLib/ComLib/lua/lundump.c:161-181 | A dumped function tree is read back, up to inherited sources and stripped debug information, consuming exactly its bytes, within the nesting limit |
| Chunk.ChunkRoundTrip | Lwdp/code/LwApiLib/ComLib/lua/lundump.c:195-209 | Loading a dumped chunk gives the same tree and exactly the bytes behind it, if and only if every function in the tree has a source |
| Chunk.StrippedRoundTrip | Lwdp/code/LwApiLib/ComLib/lua/ldump.c:111-127 | A stripped chunk loses the sources and the debug information, and nothing else |
| Chunk.TopSame | Lwdp/code/LwApiLib/ComLib/lua/ldump.c:129-141 | The encoding of inherited sources gives the tree back exactly if all sources are there |
| Chunk.ValueBytes | Lwdp/code/LwApiLib/ComLib/lua/ldump.c:31-109 | Integers are four bytes, the lowest first; a string is its size with the final NUL, and size 0 if there is none; constants begin with 0, 1, 3 or 4 |
| Chunk.FunctionBytes | Lwdp/code/LwApiLib/ComLib/lua/ldump.c:129-141 | The parts of a function are dumped in the order in which they are read, each vector after its length, and stripped ones as empty |
| Chunk.ChunkBytes | Lwdp/code/LwApiLib/ComLib/lua/lundump.c:214-227 | A chunk begins with the twelve bytes ESC Lua, 0x51, 0, 1, 4, 4, 4, 8, 0 |
| ChunkCut.ChunkCutShort | Lwdp/code/LwApiLib/ComLib/lua/lundump.c:44-50 | A dumped chunk that is cut short, anywhere, is refused with the error for an unexpected end |
| ChunkCut.HeaderRefused | Lwdp/code/LwApiLib/ComLib/lua/lundump.c:183-193 | A chunk with any other header is refused as such, and one that is loaded at the limit of nested calls as too deep |
| ChunkCut.ValueRefused | Lwdp/code/LwApiLib/ComLib/lua/lundump.c:60-70 | A negative count and a constant of an unknown type have their own errors |
| ChunkCut.CodeRefused | Lwdp/code/LwApiLib/ComLib/lua/lundump.c:161-181 | What is loaded has passed the check of its code |
| ChunkIO.ZIO.Fill | Lwdp/code/LwApiLib/ComLib/lua/lzio.c:21-32 | luaZ_fill moves to the next piece and takes its first byte; an empty piece is the end |
| ChunkIO.ZIO.Lookahead | Lwdp/code/LwApiLib/ComLib/lua/lzio.c:35-45 | luaZ_lookahead shows the next byte and consumes nothing |
| ChunkIO.ZIO.Read | Lwdp/code/LwApiLib/ComLib/lua/lzio.c:58-71 | luaZ_read takes exactly n bytes however the stream is cut, or says how many are missing |
| ChunkIO.LoadState.LoadString | Lwdp/code/LwApiLib/ComLib/lua/lundump.c:76-88 | LoadString in place is the decoder of strings, with the empty size for a missing string |
| ChunkIO.LoadState.LoadCode | Lwdp/code/LwApiLib/ComLib/lua/lundump.c:90-96 | LoadCode in place is the decoder of the code vector |
| ChunkIO.LoadState.LoadConstants | Lwdp/code/LwApiLib/ComLib/lua/lundump.c:100-135 | LoadConstants in place is the decoder of the constants, with the error for an unknown type |
| ChunkIO.LoadState.LoadDebug | Lwdp/code/LwApiLib/ComLib/lua/lundump.c:137-159 | LoadDebug in place is the decoder of lines, local variables and upvalue names |
| ChunkIO.LoadState.LoadFunctions | Lwdp/code/LwApiLib/ComLib/lua/lundump.c:130-134 | The loop over the nested functions, which recurs, is the decoder of their list |
| ChunkIO.LoadState.LoadFunction | Lwdp/code/LwApiLib/ComLib/lua/lundump.c:161-181 | LoadFunction in place is the decoder of functions, with the errors for deep nesting and for code that the check refuses |
| ChunkIO.LoadState.Undump | Lwdp/code/LwApiLib/ComLib/lua/lundump.c:195-209 | luaU_undump in place is the decoder of chunks, header included |
| ChunkIO.DumpState.DumpString | Lwdp/code/LwApiLib/ComLib/lua/ldump.c:61-74 | DumpString writes the encoding of a string, unless the writer has failed before: then it writes nothing and keeps the status |
| ChunkIO.DumpState.DumpConstants | Lwdp/code/LwApiLib/ComLib/lua/ldump.c:80-109 | The same for the constants |
| ChunkIO.DumpState.DumpDebug | Lwdp/code/LwApiLib/ComLib/lua/ldump.c:111-127 | The same for the debug information, stripped or not |
| ChunkIO.DumpState.DumpFunction | Lwdp/code/LwApiLib/ComLib/lua/ldump.c:129-141 | The same for a function with its nested functions |
| ChunkIO.DumpState.Dump | Lwdp/code/LwApiLib/ComLib/lua/ldump.c:153-164 | luaU_dump with status 0 has written the whole chunk |
| ChunkIO.DumpAndUndump | Lwdp/code/LwApiLib/ComLib/lua/ldump.c:153-164 | End to end: a chunk dumped without an error, followed by any bytes and cut in any way into non-empty pieces, is loaded; the tree comes back and exactly its bytes are consumed, if and only if every function has a source |
| LuaQuote.AddQuoted | Lwdp/code/LwApiLib/ComLib/lua/lstrlib.c:696-723 | addquoted appends the quoted form of the string to the buffer |
| LuaQuote.QuoteRoundTrip | Lwdp/code/LwApiLib/ComLib/lua/llex.c:278-331 | Reading a quoted string gives exactly its bytes, newlines, returns, NULs before digits, quotes and backslashes included, and stops behind the quote, whatever follows; if and only if the line number stays below MAX_INT |
| LuaQuote.QuotedApart | Lwdp/code/LwApiLib/ComLib/lua/lstrlib.c:696-723 | Different strings have different quoted forms |
| LuaQuote.LexState.IncLineNumber | Lwdp/code/LwApiLib/ComLib/lua/llex.c:129-137 | inclinenumber skips one newline, or a pair of different newline characters, and refuses the line MAX_INT |
| LuaQuote.LexState.ReadDecimal | Lwdp/code/LwApiLib/ComLib/lua/llex.c:310-316 | A decimal escape takes up to three digits, and is their value to the base 10 |
| LuaQuote.LexState.ReadString | Lwdp/code/LwApiLib/ComLib/lua/llex.c:278-331 | read_string in place, on a stream cut in any way and on any text, returns the string, rest and line, or the error, that the specification gives |
| LuaStringText.LiteralExact | Lwdp/code/LwApiLib/ComLib/lua/llex.c:278-331 | A text is read as a string exactly if it is a sequence of pieces that stand for its bytes one after the other, up to the delimiter: bytes as they are, a backslash with the k-th of abtnvfr for 7+k, with one to three digits for their number, with a newline or a mixed pair for a newline that counts as a line, and with any other byte for itself |
| LuaStringText.LiteralErrors | Lwdp/code/LwApiLib/ComLib/lua/llex.c:281-320 | Behind such pieces the end of the text, a bare newline, an escaped one on line MAX_INT, and three digits above 255 give their errors |
| LuaStringText.NumbersRead | Lwdp/code/LwApiLib/ComLib/lua/llex.c:308-319 | Any string can be written by the three digits of each of its bytes |
| LuaStringText.QuotedForm | Lwdp/code/LwApiLib/ComLib/lua/lstrlib.c:696-723 | addquoted writes byte by byte, all as they are but the quote, the backslash, the newline, the return and NUL |
| LuaParser.SubexprExact | Lwdp/code/LwApiLib/ComLib/lua/lparser.c:828-853 | A call with a limit returns a tree and stops at a token exactly if the tokens read are those of the tree, the tree is the one that the limits allow, nesting is within LUAI_MAXCCALLS and the next token is no operator above the limit: so it stops at the first operator whose left priority is not above its limit |
| LuaParser.PrioritiesAreManual | Lwdp/code/LwApiLib/ComLib/lua/lparser.c:810-821 | The trees that the left and right priorities and the unary priority 8 allow are those of the manual's precedence and associativity rules |
| LuaParser.ParseExact | Lwdp/code/LwApiLib/ComLib/lua/lparser.c:828-858 | A whole text is parsed to a tree exactly if that is the manual's tree for it and the nesting is within 200 levels |
| LuaParser.Operators | Lwdp/code/LwApiLib/ComLib/lua/lparser.c:778-807 | A token is taken for an operator exactly if its text is the operator's in the manual |
| LuaParser.Unclosed | Lwdp/code/LwApiLib/ComLib/lua/lparser.c:674-679 | After an opening parenthesis and an expression, any token but the closing one gives the error for a missing parenthesis |
| LuaParser.SuffixOutside | Lwdp/code/LwApiLib/ComLib/lua/lparser.c:689-735 | A name with an index, a field, a method or arguments behind it is read on by primaryexp, where the model ends |
| LuaParser.NoOperand | Lwdp/code/LwApiLib/ComLib/lua/lparser.c:682-686 | A text that begins with a binary operator, a closing parenthesis, a suffix or the end is refused with the error for an unexpected symbol |
| LuaParser.Unambiguous | Lwdp/code/LwApiLib/ComLib/lua/lparser.c:823-827 | No text has two trees |
| LuaParser.PrintRoundTrip | Lwdp/code/LwApiLib/ComLib/lua/lparser.c:828-858 | Parsing the print of any tree gives the tree back, with every operand in parentheses or only those that need them; beyond the nesting limit it gives the error |
| LuaParser.LexState.SubExpr | Lwdp/code/LwApiLib/ComLib/lua/lparser.c:828-853 | subexpr with its loop, advancing the lexer, returns the tree or the error of the specification, and the first operator left untreated |
| LuaParser.LexState.PrefixExpr | Lwdp/code/LwApiLib/ComLib/lua/lparser.c:667-687 | prefixexp is its specification, with the errors for a missing parenthesis and an unexpected symbol |
| LuaSort.MedianOfThree | Lwdp/code/LwApiLib/ComLib/lua/ltablib.c:196-219 | The first, middle and last element are put in order by exchanges; with two elements, just those |
| LuaSort.ScanRight | Lwdp/code/LwApiLib/ComLib/lua/ltablib.c:228-232 | The scan to the right stays within the range, so that invalid order function is never raised |
| LuaSort.ScanLeft | Lwdp/code/LwApiLib/ComLib/lua/ltablib.c:233-237 | The scan to the left stays within the range |
| LuaSort.Partition | Lwdp/code/LwApiLib/ComLib/lua/ltablib.c:220-248 | The partition rearranges the range so that nothing left of the pivot is above it and nothing right of it below |
| LuaSort.AuxSort | Lwdp/code/LwApiLib/ComLib/lua/ltablib.c:193-254 | For every strict weak order auxsort ends with a sorted rearrangement of the range, changes nothing outside it, and nests at most floor(log2 n) + 1 calls |
| LuaSort.Sort | Lwdp/code/LwApiLib/ComLib/lua/ltablib.c:256-266 | table.sort sorts the whole array, with the same elements |
| LuaUpvals.FindUpvalWF | Lwdp/code/LwApiLib/ComLib/lua/lfunc.c:53-79 | luaF_findupval keeps the list strictly descending with one upvalue per level, and every upvalue that a closure holds alive |
| LuaUpvals.CloseEffect | Lwdp/code/LwApiLib/ComLib/lua/lfunc.c:96-112 | luaF_close closes exactly the upvalues from the level on, each with the value of its slot, frees those that are dead, and leaves the others |
| LuaUpvals.SweepEffect | Lwdp/code/LwApiLib/ComLib/lua/lgc.c:407-428 | The sweep of the list of open upvalues frees exactly the dead ones |
| LuaUpvals.DroppedMayDie | Lwdp/code/LwApiLib/ComLib/lua/lfunc.c:53-112 | When the only closure that holds an open upvalue is given up, the upvalue may be found dead; then another capture of its level finds it and brings it back to life, a close of its level frees it instead of giving it the value, and so does the sweep |
| LuaUpvals.RevivingRun | Lwdp/code/LwApiLib/ComLib/lua/lfunc.c:58-65 | There is a run in which an upvalue dies, is brought back by another capture, and is read through the new closure |
| LuaUpvals.StepRelated | Lwdp/code/LwApiLib/ComLib/lua/lfunc.c:53-112 | Every step of a program on upvalues is matched by the same step on shared cells, and reads the same value |
| LuaUpvals.SharedCells | Lwdp/code/LwApiLib/ComLib/lua/lvm.c:427-456 | For every run of captures, reads, writes, closes, closures being given up, upvalues being found dead and sweeps of the list, closures and locals read what they would if each captured variable were one cell that closures share with the stack slot and keep when the slot is given up |
| LuaFunc.LinkAfter | Lwdp/code/LwApiLib/ComLib/lua/lfunc.c:73-78 | A new upvalue is put behind uvhead, and the ring stays doubly linked |
| LuaFunc.UnlinkUpval | Lwdp/code/LwApiLib/ComLib/lua/lfunc.c:82-86 | An upvalue is taken out, and the ring stays doubly linked |
| LuaFunc.LuaState.FindUpval | Lwdp/code/LwApiLib/ComLib/lua/lfunc.c:53-79 | luaF_findupval in place is its specification: list, ring and upvalues stay consistent, also with upvalues of other threads on the ring |
| LuaFunc.LuaState.SweepOpen | Lwdp/code/LwApiLib/ComLib/lua/lgc.c:407-428 | sweeplist on the list of open upvalues, with unlinkupval for each that is freed, is its specification: list and ring stay consistent |
| LuaFunc.LuaState.Close | Lwdp/code/LwApiLib/ComLib/lua/lfunc.c:96-112 | luaF_close in place is its specification |
| LuaFunc.LuaState.GetUpval | Lwdp/code/LwApiLib/ComLib/lua/lvm.c:427-431 | OP_GETUPVAL reads through the pointer of the upvalue |
| LuaFunc.LuaState.SetUpval | Lwdp/code/LwApiLib/ComLib/lua/lvm.c:450-455 | OP_SETUPVAL writes through it, into the stack or the upvalue |
| LuaFunc.LuaState.MakeClosure | Lwdp/code/LwApiLib/ComLib/lua/lvm.c:723-742 | OP_CLOSURE captures each listed register or upvalue of the running closure |
| LuaRefs.OneBoundary | Lwdp/code/LwApiLib/ComLib/lua/lauxlib.c:495-498 | With no free reference the number of live ones is the only boundary of the table |
| LuaRefs.RefHolds | Lwdp/code/LwApiLib/ComLib/lua/lauxlib.c:481-501 | A new reference was not in use; live and free ones still partition 1..n and live ones keep their values |
| LuaRefs.UnrefHolds | Lwdp/code/LwApiLib/ComLib/lua/lauxlib.c:504-512 | A reference that is given up becomes the next to be handed out; the others keep their values |
| LuaRefs.RefTable.Ref | Lwdp/code/LwApiLib/ComLib/lua/lauxlib.c:481-501 | luaL_ref on a table, with luaH_getn, returns a reference that was not live and records the value; nil gets the fixed reference and changes nothing; it fails only on a full table |
| LuaRefs.RefTable.Unref | Lwdp/code/LwApiLib/ComLib/lua/lauxlib.c:504-512 | luaL_unref of a live reference takes it out of use; a negative one changes nothing |
| UTFConvert.SumsUp | Lwdp/code/LwApiLib/ComLib/ConvStr/UTFConvert.cpp:10-121 | The units and the bytes of a character add up to its value by the positions of their bits |
| UTFConvert.To8Ok | Lwdp/code/LwApiLib/ComLib/ConvStr/UTFConvert.cpp:80-121 | The conversion to UTF-8 succeeds exactly if surrogates come in pairs |
| UTFConvert.To8Shortest | Lwdp/code/LwApiLib/ComLib/ConvStr/UTFConvert.cpp:102-117 | Its output is well-formed UTF-8 by section 4 of RFC 3629: shortest forms, no surrogates, nothing above 10FFFF |
| UTFConvert.RoundTrip | Lwdp/code/LwApiLib/ComLib/ConvStr/UTFConvert.cpp:10-121 | Reading back what was written gives the same units, with success |
| UTFConvert.RoundTripBack | Lwdp/code/LwApiLib/ComLib/ConvStr/UTFConvert.cpp:10-121 | Reading well-formed UTF-8 succeeds, and writing the result gives the same bytes |
| UTFConvert.DecodesExactly | Lwdp/code/LwApiLib/ComLib/ConvStr/UTFConvert.cpp:10-69 | What the reader makes of any bytes stands for just these bytes if and only if they are well-formed UTF-8; a truncated character shows that it may succeed on others |
| UTFConvert.SucceedsExactly | Lwdp/code/LwApiLib/ComLib/ConvStr/UTFConvert.cpp:10-69 | The reader succeeds on any bytes exactly if no character starts with a byte of 80..BF and none has a value of 110000 or more, where a character ends behind its last following byte or behind the byte that cuts it short |
| UTFConvert.Utf16ToUtf8 | Lwdp/code/LwApiLib/ComLib/ConvStr/UTFConvert.cpp:71-121 | The loop writes exactly the specified bytes, leaves the rest of the destination alone, and without a destination counts as many |
| UTFConvert.Utf8ToUtf16 | Lwdp/code/LwApiLib/ComLib/ConvStr/UTFConvert.cpp:10-69 | The same for the other direction, on any bytes |
| UTFConvert.ConvertUnicodeToUtf8 | Lwdp/code/LwApiLib/ComLib/ConvStr/UTFConvert.cpp:135-146 | The public conversion allocates what the first pass counted, the second pass fills just that, and the result ends at its first zero |
| UTFConvert.ConvertUtf8ToUnicode | Lwdp/code/LwApiLib/ComLib/ConvStr/UTFConvert.cpp:123-133 | The same for the other direction |
| UTFConvert.PublicRoundTrip | Lwdp/code/LwApiLib/ComLib/ConvStr/UTFConvert.cpp:123-146 | Through both public conversions a well-formed text comes back up to its first zero, so all of it exactly if it contains none |

## Left out

Collector:

- Weak tables and `cleartable`; userdata with finalizers, `GCTM` and `luaC_separateudata`; the estimates and debt that pace the steps.
- Open upvalues in the collector and `remarkupvals`: an upvalue there is closed.  Open ones are modelled in `LuaUpvals` and `LuaFunc`, where a program may give up a closure, upvalues that no closure holds may be found dead, and the list is swept.
- CollectorInvariant.MarkObjectMarks: closed upvalues only; the source leaves open ones gray.
- CollectorMachine.GlobalState.ReallyMarkObject: the same.
- CollectorMachine.GlobalState.TraverseTable: tables without a weak mode.
- CollectorSafety.AtomicMarkCloses: without `remarkupvals`, weak tables and the separation of userdata.
- CollectorSafety.AtomicKeeps: the same.
- CollectorMachine.GlobalState.AtomicStep: the same.
- CollectorSafety.SweepSeqSpec: the list of open upvalues of a thread is not swept there, but in `LuaFunc.LuaState.SweepOpen`.
- CollectorMachine.GlobalState.SweepList: the same.
- CollectorSafety.SweepStepKeeps: without `checkSizes` at the end of the sweep.
- `checkSizes`, which may shrink the string table: the model has resizing as an event of the mutator, outside a sweep of strings.  Shrinking of stacks and of the buffer is not modelled.
- A store replaces the contents of one object and brings in at most one new reference, which is what one barrier covers.
- The registry is set before the first cycle, and only strings and the main thread are ever fixed, as in the source.

Generator, interpreter, parser:

- Arithmetic, concatenation, length, globals, indexing, calls, constructors and constant folding in the generator; `LuaProgram.Covered` says which trees are passed on.  The parser covers all unary and binary operators.
- LuaGenerator.FuncState.FixJump: without the error for an offset of more than 18 bits.
- LuaGenerator.FuncState.Infix: the operators that conditions use, not arithmetic and concatenation.
- LuaGenerator.FuncState.Posfix: the same.
- Other limits of the generator: 250 registers, 2^18 constants.  The constants table is searched instead of hashed.
- A LOADNIL with an empty range counts as malformed, since none is emitted; a jump backwards, which no expression contains, ends a stretch as stuck.
- Metamethods in comparisons: a comparison is any function of the environment that may fail.
- Fields, indices, calls, constructors, functions and `...` end the model of the parser with an error of its own.

Tables:

- Keys that the collector has marked dead, which `findindex` still accepts; NaN as a key; numbers that are not integers.
- `luaH_new` and `luaH_resizearray` with more than 2^26 array slots, which the source does not refuse; failing allocations.
- The main position of a key is any function of the key and the node count.

Pattern matching:

- `gmatch`, `gsub` and `string.format` but for `%q`; locales other than C; the depth of the C stack.

Chunks:

- Other sizes and byte orders than 32-bit little-endian integers and 64-bit numbers; a number is its bytes.  The bytecode checker is a parameter.

Strings, sorting, upvalues, references, UTF:

- The lexer but for strings in quotes; the growth of its buffer, whose limit is the size of memory.
- LuaSort.AuxSort: order functions that are no strict weak order, fail or have effects, for which the source promises nothing.
- Reallocation of the stack, which corrects the pointers of open upvalues; coroutines other than as owners of upvalues on the ring; closed upvalues that no closure holds are kept, and freed in the collector's model only.
- `wchar_t` has 16 bits.

Not modelled at all, because they are plumbing or foreign calls: the C API wrappers, the other libraries, coroutines and error unwinding, the plugin framework, the loggers and the configuration managers.
