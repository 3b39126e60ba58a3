# Krakoa compiler, runner and graph manager in Dafny

This project models the core of the Krakoa toolchain of GenesisAI. Krakoa is a
symbolic scripting notation. Its toolchain has four parts:

- **The compiler** (`KrakoaCompiler.ts`). It takes a parsed node forest and:
  - linearises it into a dense instruction list, with `next` successors;
  - checks every `@` reference tag against the tree;
  - builds the symbol table from instruction ids and `#` hashtag roots;
  - resolves every tag to an address;
  - pools every string into a text table.
- **The runner** (`KrakoaRunner.ts`). It is a register machine with `IP`,
  `Status`, `ESP` and `BSP` over a data stack of frames. `step` fetches the
  instruction at `IP`, decodes it through the text pool, dispatches it to its
  opcode handler, applies the implicit return, and then advances `IP` or halts.
- **The opcode handlers**: Trigger (`➔`), Inheritance/Return (`🔗`),
  Speech (`💬`, `📡`) and Contextual (`👤`, `🧠`, `🧬`).
- **The lambda evaluator** (`KrakoaEvaluator.ts`). It looks a property up
  through the data stack and applies the `Tags` view, whose missing keys
  read `false`.

The project also models the graph manager (`GraphManager.ts`), which
registers nodes by id and merges duplicate-id nodes into the first one.

JavaScript values are modelled by one datatype, `KrakoaValues.Value`. Objects
are ordered field lists, because the order of the text pool depends on key
order. Frames are maps from keys to values.

The runner is a class whose state is `Runner.State()`. Each handler is a
method on that class. It is proved to produce exactly the effect
(outcome and new machine) of a pure function of the old machine. The
properties of those functions are then proved as lemmas.

The graph manager is also a class. Its nodes are shared, mutable objects, so
they are records in a store addressed by index. Bodies, the registry and the
`from`/`to` params hold indices into that store.

The model follows the code as written. Some of its behaviour is easy to
misread, so it is stated here:

- **The `-1` successor does not halt.** A last top-level instruction whose
  `next[0]` is `-1` sets `IP` to `-1` and stays `RUNNING`. The following
  step then fails to fetch (`StallOnMinusOne`).
  - The linearisation never produces `-1` (`NextOf`: `next[0]` is always
    the address plus one).
  - A program whose last instruction points one past the end halts.
- **A trigger merges into its own frame, not into its parent.** On exit, a
  trigger merges the frames above its own frame into that frame and leaves
  that frame on the stack; the parent frame at `__BSP` is not touched. The
  driver scripts `app/test_hello.ts:27-33` and `app/test_deadpool.ts:28-37`
  look for the absorbed keys in `DataStack[0]`. That frame receives them
  only when it is the trigger's own frame, that is, when the trigger was
  entered on an empty stack (`ExitReturns`, `EnterThenExit`).
- **A nested trigger's bookkeeping leaks into its scope on exit.** Before a
  popped frame is merged, only its `__trigger` key and the key it names are
  removed. A nested trigger's frame therefore brings its own `__BSP`,
  `__retAddress` and `__isExecuting` into the scope's frame, and the new
  `BSP` is read from the merged frame. So an outer trigger that exits over a
  nested trigger's frame takes the nested trigger's saved `BSP`, not its
  own (`ExitTakesNestedBSP`).
- **A trigger runs exactly one cycle.** A new scope's cycle record holds
  `__cycleMaxim = 1`, and nothing in the code raises it, so the first
  re-entry exits (`FirstReentryExits`).
- **Inheritance only checks its scope.** It checks that it runs inside a
  trigger entered from the address just before it and jumps back to that
  trigger. Nothing else happens: no per-tag cycling and no absorption.
- **Params are stored raw.** Contextual and Speech do not run params through
  the lambda evaluator. They spread or store the params as they are.
- **Types are pooled.** The instruction `type` is pooled like any other string
  and decoded back by the runner; only `address`, `original`, `target` and
  `kind` are pooling-exempt.
- **Reference checking commits to the first match.** `verifyReference` walks
  to the first matching child at each step, without backtracking. A success
  therefore implies that a path exists (`ReferenceHoldsIsSound`), but not the
  converse.
- **The graph manager is unused.** No other file of the repository imports
  `GraphManager.ts`. It is modelled as written.

## Model

| member | source | states |
|---|---|---|
| KrakoaLinearize.NextOf | app/src/engine/KrakoaCompiler.ts:245-277 | the first successor is always the next address; a second successor exists exactly for a trigger or anchor with a non-empty body, and it is the address just past the node's whole subtree |
| KrakoaLinearize.Linear | app/src/engine/KrakoaCompiler.ts:220-279 | the forest yields exactly one instruction per node of its pre-order flattening |
| KrakoaLinearize.LinearAt | app/src/engine/KrakoaCompiler.ts:220-248 | the instruction at address base+k is built from the k-th node in pre-order, with that address |
| KrakoaLinearize.FirstTriggerUpTo | app/src/engine/KrakoaCompiler.ts:227-229 | once a first trigger index is recorded, the rest of the walk never overwrites it |
| KrakoaLinearize.FirstTriggerIsFirstTopLevel | app/src/engine/KrakoaCompiler.ts:227-229 | the recorded first trigger index is -1 exactly when no top-level node is a trigger; otherwise it is the address of the first top-level trigger |
| KrakoaLinearize.NestedKeepsFirstTrigger | app/src/engine/KrakoaCompiler.ts:227-229 | once a first trigger is recorded, or inside a body with a non-zero return index, nothing changes it |
| KrakoaLinearize.Linearizer.constructor | app/src/engine/KrakoaCompiler.ts:40-42 | a fresh linearisation has no instructions and no first trigger |
| KrakoaLinearize.Linearizer.CheckTags | app/src/engine/KrakoaCompiler.ts:236-244 | the tag check fails exactly when some reference tag of the node does not verify, and reports such a tag |
| KrakoaLinearize.Linearizer.Process | app/src/engine/KrakoaCompiler.ts:220-279 | the loop fails exactly when some node in the subtree has a bad reference; otherwise it appends the linearisation of the list and updates the first trigger as the specification function says |
| KrakoaLinearize.Linearizer.Visit | app/src/engine/KrakoaCompiler.ts:221-277 | one node appends its whole subtree's instructions in pre-order, or fails on a bad reference inside it |
| KrakoaLinearize.Linearizer.VisitBody | app/src/engine/KrakoaCompiler.ts:250-270 | the body is linearised right after its parent, and the parent's successors are those `NextOf` states |
| KrakoaReferences.Strip | app/src/engine/KrakoaCompiler.ts:174 | one leading `@` or `#` is removed; any other string is unchanged |
| KrakoaReferences.FirstMatch | app/src/engine/KrakoaCompiler.ts:172-183 | a result matches and comes from the sequence; no result means that no element matches |
| KrakoaReferences.FindNodeDeep | app/src/engine/KrakoaCompiler.ts:172-183 | a node found matches the target by id or tag; nothing found means that no top-level node matches |
| KrakoaReferences.FindNodeDeepIsFirstInPreOrder | app/src/engine/KrakoaCompiler.ts:172-183 | the deep search returns the first matching node of the pre-order flattening |
| KrakoaReferences.ChildMatch | app/src/engine/KrakoaCompiler.ts:202-206 | a child found matches the segment by id or tag; no child means that none matches |
| KrakoaReferences.Walk | app/src/engine/KrakoaCompiler.ts:196-212 | a walk is accepted only when every segment has text: an object segment fails it |
| KrakoaReferences.VerifyReference | app/src/engine/KrakoaCompiler.ts:189-214 | the loop accepts exactly the reference paths that the declarative walk accepts |
| KrakoaReferences.WalkIsPath | app/src/engine/KrakoaCompiler.ts:196-212 | an accepted walk follows a chain of nodes, each step staying on a tag or descending to a matching child |
| KrakoaReferences.ReferenceHoldsIsSound | app/src/engine/KrakoaCompiler.ts:189-214 | an accepted reference has a root node in the forest matching its first segment and a path matching the rest |
| KrakoaReferences.UnknownRootFails | app/src/engine/KrakoaCompiler.ts:191-195 | a reference whose first segment matches no node is rejected |
| KrakoaPool.IndexOf | app/src/engine/KrakoaCompiler.ts:64 | the first slot holding the string, and -1 exactly when it is absent |
| KrakoaPool.PoolValue | app/src/engine/KrakoaCompiler.ts:59-80 | pooling leaves no string in the value and only grows the pool |
| KrakoaPool.PoolScalar | app/src/engine/KrakoaCompiler.ts:59-63 | a falsy value (`""`, `0`, `false`, `null`, `undefined`) pools to `undefined` without touching the pool, and a truthy number or boolean is kept as it is |
| KrakoaPool.InternConcat | app/src/engine/KrakoaCompiler.ts:64-67 | interning two sequences one after the other is interning their concatenation |
| KrakoaPool.InternFacts | app/src/engine/KrakoaCompiler.ts:64-67 | interning keeps the old slots and their distinctness; each new slot holds a string of the sequence that the pool lacked, in order of first occurrence |
| KrakoaPool.PoolValueInterns | app/src/engine/KrakoaCompiler.ts:59-80 | the pool after pooling a value is the old pool with the value's strings interned in traversal order |
| KrakoaPool.PoolItemsInterns | app/src/engine/KrakoaCompiler.ts:61 | the pool after pooling an array is the old pool with its items' strings interned in item order |
| KrakoaPool.PoolFields | app/src/engine/KrakoaCompiler.ts:73-76 | pooling an object's fields keeps their number and their keys, leaves no string under a non-exempt key, and only grows the pool |
| KrakoaPool.PoolFieldsInterns | app/src/engine/KrakoaCompiler.ts:73-76 | the pool after pooling an object is the old pool with its non-exempt fields' strings interned in field order |
| KrakoaPool.PoolValueContents | app/src/engine/KrakoaCompiler.ts:59-80 | pooling keeps the old slots and keeps the pool free of duplicates; the pool ends up holding exactly the old entries plus the value's poolable strings, and the new slots hold the strings the pool lacked, once each, in the order pooling first meets them |
| KrakoaPool.PoolString | app/src/engine/KrakoaCompiler.ts:62-69 | a non-empty string becomes an index whose pool slot holds that string |
| KrakoaPool.PoolKeepsKey | app/src/engine/KrakoaCompiler.ts:74-76 | a field under an exempt key (`address`, `original`, `target`, `kind`), or whose value pooling leaves alone (undefined, `true`, a non-zero number, a lambda, or an array of those), reads the same after pooling |
| KrakoaPool.PoolLambda | app/src/engine/KrakoaCompiler.ts:71 | a lambda object is kept verbatim and adds nothing to the pool |
| KrakoaPool.PoolFieldsKeys | app/src/engine/KrakoaCompiler.ts:73-76 | pooling an object keeps exactly its keys |
| KrakoaPool.PoolStrings | app/src/engine/KrakoaCompiler.ts:59-80 | the recursive pooling procedure computes the pooled value and the grown pool of the specification |
| KrakoaPool.PoolEach | app/src/engine/KrakoaCompiler.ts:61 | pooling an array pools its items left to right, threading the pool |
| KrakoaPool.PoolEntries | app/src/engine/KrakoaCompiler.ts:73-76 | pooling an object's fields in key order threads the pool through them |
| KrakoaPool.Decode | app/src/engine/KrakoaRunner.ts:186-202 | decoding leaves no number and no `null`: a number becomes the text at that index, or `undefined` when out of range; arrays and objects keep their length |
| KrakoaPool.LookupDecodeFields | app/src/engine/KrakoaRunner.ts:193-198 | decoding an object keeps its keys, copies `address`, `next`, `original` and `target` verbatim and decodes every other field |
| KrakoaPool.DecodePoolValue | app/src/engine/KrakoaRunner.ts:186-202 | decoding a pooled value through any text table that extends the pool gives the original value back, for every value that round-trips (no numbers outside exempt keys, no empty strings) |
| KrakoaPool.NumbersDoNotRoundTrip | app/src/engine/KrakoaRunner.ts:188 | a number outside the exempt keys, such as a timestamp, decodes to a text pool entry rather than to itself |
| KrakoaSolve.ScanForHashTags | app/src/engine/KrakoaCompiler.ts:85-97 | scanning registers every hashtag root found anywhere in the value at the current address and leaves other symbols alone |
| KrakoaSolve.Register | app/src/engine/KrakoaCompiler.ts:91-93 | the table gains the given keys at the address, and keeps every other entry |
| KrakoaSolve.SymbolsUpTo | app/src/engine/KrakoaCompiler.ts:147-154 | after the loop over the first n instructions, every symbol maps to one of their addresses |
| KrakoaSolve.SymbolIsRegistered | app/src/engine/KrakoaCompiler.ts:147-154 | a symbol is in the table exactly when some instruction registers it, by id or hashtag root |
| KrakoaSolve.RegisteredIsInTable | app/src/engine/KrakoaCompiler.ts:147-154 | every id or hashtag root of a scanned instruction is in the table |
| KrakoaSolve.SymbolIsLastRegistration | app/src/engine/KrakoaCompiler.ts:147-154 | a symbol maps to the last address that registers it (the later instruction wins) |
| KrakoaSolve.SegmentIds | app/src/engine/KrakoaCompiler.ts:109 | segment ids exist exactly when every segment has one, and they are those ids in order |
| KrakoaSolve.HashtagWalkIsLastSegment | app/src/engine/KrakoaCompiler.ts:105-112 | the hashtag walk's address and target are those of the last segment alone (-1 when it is unregistered), and the root when there are no segments |
| KrakoaSolve.SolvedHashtag | app/src/engine/KrakoaCompiler.ts:105-119 | a solved hashtag keeps root, kind and segments, reads `original` `#root`, targets its last segment and addresses it, or -1 |
| KrakoaSolve.SolvedReference | app/src/engine/KrakoaCompiler.ts:120-137 | a solved reference has its segment names as segments, `original` `@a::b`, the last segment as target and its address, or -1 |
| KrakoaSolve.SolvedBareReference | app/src/engine/KrakoaCompiler.ts:120-137 | a reference without segments targets its root at address -1 |
| KrakoaSolve.SolvedReferencePath | app/src/engine/KrakoaCompiler.ts:120-137 | a reference with segments targets and addresses its last segment |
| KrakoaSolve.SolveReferenceNoSegments | app/src/engine/KrakoaCompiler.ts:120-137 | a reference object with an empty segment list still solves |
| KrakoaSolve.SolveValue | app/src/engine/KrakoaCompiler.ts:102-145 | a falsy value solves to `undefined`; a truthy string, number or boolean is kept; an array solves exactly when every item does, and keeps its length |
| KrakoaSolve.SolveItems | app/src/engine/KrakoaCompiler.ts:104 | an array solves exactly when every item does, item by item |
| KrakoaSolve.SolveFields | app/src/engine/KrakoaCompiler.ts:138-143 | a plain object solves exactly when every field does, keeping its keys |
| KrakoaSolve.LookupSolveFields | app/src/engine/KrakoaCompiler.ts:138-143 | reading a key of a solved object gives the solved value of that key |
| KrakoaSolve.SolveString | app/src/engine/KrakoaCompiler.ts:103 | the empty string becomes undefined; every other string is kept |
| KrakoaSolve.SolveNext | app/src/engine/KrakoaCompiler.ts:103-104 | a successor list of positive addresses is unchanged by solving |
| KrakoaSolve.TagSolves | app/src/engine/KrakoaCompiler.ts:105-137 | every tag the parser produces solves |
| KrakoaSolve.SolveTagList | app/src/engine/KrakoaCompiler.ts:104 | a tag list solves to the list of solved tags |
| KrakoaSolve.InstructionSolvable | app/src/engine/KrakoaCompiler.ts:138-143 | an instruction whose id and params solve has every field solvable |
| KrakoaSolve.SolvedInstruction | app/src/engine/KrakoaCompiler.ts:138-143 | a solved instruction keeps its successors and its type (undefined for an empty type) |
| KrakoaSolve.SolvedInstructionOperands | app/src/engine/KrakoaCompiler.ts:138-143 | a solved instruction's id and params are the solved originals, and its tags are the solved tags |
| KrakoaLink.LinkOf | app/src/engine/KrakoaCompiler.ts:51-166 | linking succeeds exactly when every instruction solves against the symbol table; the program then carries the given entry, that table, and code at exactly the addresses 0..N-1 |
| KrakoaLink.Link | app/src/engine/KrakoaCompiler.ts:51-166 | linking fails exactly when solving some instruction throws; otherwise it yields the entry, the pool and the pooled, solved code of the specification |
| KrakoaLink.RegisterSymbols | app/src/engine/KrakoaCompiler.ts:147-154 | the registration loop builds the symbol table of all instructions |
| KrakoaLink.PoolCode | app/src/engine/KrakoaCompiler.ts:155-158 | pooling the code instruction by instruction threads one text pool through all of them |
| KrakoaLink.CodeMap | app/src/engine/KrakoaCompiler.ts:156-158 | the code map's keys are exactly the dense addresses 0..N-1, each holding its instruction |
| KrakoaLink.Compile | app/src/engine/KrakoaCompiler.ts:40-287 | compilation raises a semantic error exactly when some reference tag in the forest does not verify, naming some failing tag (which one is left open); otherwise it succeeds exactly when linking does, with the linked program |
| KrakoaLink.PooledNext | app/src/engine/KrakoaCompiler.ts:155-158 | pooling leaves an instruction's successor list unchanged |
| KrakoaLink.NumbersKeep | app/src/engine/KrakoaCompiler.ts:59-80 | a list of positive addresses is left alone by pooling |
| KrakoaLink.DecodedPooledType | app/src/engine/KrakoaRunner.ts:186-202 | a pooled instruction's type decodes back to itself |
| KrakoaLink.LinkedNext | app/src/engine/KrakoaCompiler.ts:245-277 | the linked program holds at each address the successors the linearisation gave that node |
| KrakoaLink.LinkedType | app/src/engine/KrakoaCompiler.ts:233 | the linked program's instruction at each address decodes to that node's type |
| KrakoaLink.CompiledNext | app/src/engine/KrakoaCompiler.ts:281-286 | in a compiled program the instruction at address a has the successors of the a-th node in pre-order |
| KrakoaLink.CompiledFirstNext | app/src/engine/KrakoaRunner.ts:168 | in a compiled program the successor `fetch` reads at address a (`next[0] ?? -1`) is always a + 1 |
| KrakoaLink.CompiledType | app/src/engine/KrakoaCompiler.ts:281-286 | in a compiled program the instruction at address a decodes to the type of the a-th node in pre-order |
| KrakoaRunner.Initial | app/src/engine/KrakoaRunner.ts:208-215 | a reset machine is running at the entry with an empty stack and `ESP` = `BSP` = -1 |
| KrakoaRunner.Fetch | app/src/engine/KrakoaRunner.ts:163-177 | a fetch succeeds exactly when the code has an instruction at `IP`, and carries that address, that instruction and its first successor |
| KrakoaRunner.Runner.constructor | app/src/engine/KrakoaRunner.ts:53-55 | a new runner holds its program and starts in the reset state |
| KrakoaRunner.Runner.Reset | app/src/engine/KrakoaRunner.ts:208-215 | reset returns the machine to the entry, running, with an empty stack |
| KrakoaTrigger.TriggerNameIsFresh | app/src/engine/opcodes/Trigger.ts:26 | the trigger's scope name never collides with the frame's bookkeeping keys |
| KrakoaTrigger.CycleRecordFields | app/src/engine/opcodes/Trigger.ts:33-38 | a new cycle record starts at count 0 of maximum 1, with the body and exit addresses |
| KrakoaTrigger.EnterPushes | app/src/engine/opcodes/Trigger.ts:30-50 | entering pushes exactly one scope frame on top of the untouched stack, points `ESP` and `BSP` at it and jumps into the body |
| KrakoaTrigger.Cycle | app/src/engine/opcodes/Trigger.ts:55-63 | a further cycle always succeeds, changes only `IP` and the frame at `BSP`, and keeps the stack's height |
| KrakoaTrigger.CycleCounts | app/src/engine/opcodes/Trigger.ts:55-63 | a further cycle increments only the cycle count, clears `__isExecuting`, jumps to the body and leaves every other frame alone |
| KrakoaTrigger.FirstReentryExits | app/src/engine/opcodes/Trigger.ts:58 | with the maximum of one cycle, the first re-entry exits |
| KrakoaTrigger.ExitReturns | app/src/engine/opcodes/Trigger.ts:65-82 | exiting pops every frame above the scope, merges them into it and keeps the frames below; `BSP` is taken from the merged scope frame's `__BSP` (which a popped nested trigger frame overwrites) and `IP` from the scope's cycle record, when that record exists |
| KrakoaTrigger.ExitTakesNestedBSP | app/src/engine/opcodes/Trigger.ts:66-80 | when the frame just above the scope is a nested trigger's frame, exiting takes `BSP` from that nested frame's saved `__BSP`, and the scope frame's `__retAddress` becomes the nested trigger's address |
| KrakoaTrigger.EnterThenExit | app/src/engine/opcodes/Trigger.ts:24-83 | entering a trigger and then executing it again at once returns to its exit address, restores `BSP` and leaves its frame on the stack |
| KrakoaTrigger.TriggerOp | app/src/engine/opcodes/Trigger.ts:24-86 | the trigger keeps `ESP` on the top frame, never changes the status, never reports failure (it continues or throws) and never changes a frame below the current scope |
| KrakoaTrigger.Enter | app/src/engine/opcodes/Trigger.ts:30-50 | entering throws exactly when `next` is `undefined` or `null`, and then changes nothing; otherwise it pushes one frame on the untouched stack, remembering the old `BSP`, and points `ESP` and `BSP` at it |
| KrakoaTrigger.Exit | app/src/engine/opcodes/Trigger.ts:65-82 | exiting leaves the scope frame on top with the frames below unchanged, takes `BSP` from the scope frame's `__BSP`, keeps the status and never reports failure |
| KrakoaTrigger.MergeDown | app/src/engine/opcodes/Trigger.ts:66-77 | popping down to the scope leaves exactly the scope frame and the frames below it, and those below are unchanged |
| KrakoaTrigger.MergeDownUntouched | app/src/engine/opcodes/Trigger.ts:66-77 | a key that no child frame carries keeps its value in the scope frame |
| KrakoaTrigger.AbsorbFacts | app/src/engine/opcodes/Trigger.ts:68-72 | a popped frame loses `__trigger` and the key it names; its other keys overwrite the parent's, and the parent's other keys stay |
| KrakoaTrigger.MergeDownKey | app/src/engine/opcodes/Trigger.ts:66-77 | a key carried by a child frame takes the value from the lowest child that has it, which is merged last |
| KrakoaTrigger.MergeDownKeepsName | app/src/engine/opcodes/Trigger.ts:71-72 | the scope keeps its own `__trigger` name, because the children's are stripped before merging |
| KrakoaTrigger.CountCycleFields | app/src/engine/opcodes/Trigger.ts:59 | counting a cycle changes the count by one and nothing else in the record |
| KrakoaTrigger.Trigger | app/src/engine/opcodes/Trigger.ts:24-86 | the handler has exactly the effect of the trigger's specification on the runner |
| KrakoaTrigger.EnterScope | app/src/engine/opcodes/Trigger.ts:30-50 | the entry branch has the effect of `Enter` |
| KrakoaTrigger.CycleScope | app/src/engine/opcodes/Trigger.ts:58-63 | the cycle branch has the effect of `Cycle` |
| KrakoaTrigger.ExitScope | app/src/engine/opcodes/Trigger.ts:65-82 | the exit branch has the effect of `Exit` |
| KrakoaTrigger.PopAndMerge | app/src/engine/opcodes/Trigger.ts:66-77 | the pop loop leaves the stack merged down into the scope frame and no register but `ESP` changed |
| KrakoaContextual.ContextualOp | app/src/engine/opcodes/Contextual.ts:8-35 | the handler never throws and never moves `IP` or `BSP` or the status; it succeeds exactly when the instruction has an id, and then the stack grows by one frame, otherwise by none, with `ESP` still on the top frame |
| KrakoaContextual.NoIdFails | app/src/engine/opcodes/Contextual.ts:9-10 | an instruction without an id fails and changes nothing |
| KrakoaContextual.ContextObjectFields | app/src/engine/opcodes/Contextual.ts:19-26 | the context object carries `__type`, `__address` and `__timestamp`, and every other key reads as in the spread params |
| KrakoaContextual.PushesOneFrame | app/src/engine/opcodes/Contextual.ts:8-35 | the handler pushes exactly one frame and moves `ESP` to it; it keeps `BSP`, `IP` and the status, sets `__isExecuting` on an active trigger frame at `BSP`, and leaves every other frame alone |
| KrakoaContextual.FlagScope | app/src/engine/opcodes/Contextual.ts:13-16 | flagging the scope keeps the stack's height and every frame other than the one at `BSP` |
| KrakoaContextual.FlagScopeFacts | app/src/engine/opcodes/Contextual.ts:13-16 | flagging touches only the frame at `BSP`, and only when it is a trigger frame |
| KrakoaContextual.ArrayFields | app/src/engine/opcodes/Contextual.ts:21 | spreading an array gives one field per item: the item at index `i` under the key `"i"` |
| KrakoaContextual.StringFields | app/src/engine/opcodes/Contextual.ts:21 | spreading a string gives one field per character: the one-character string at index `i` under the key `"i"` |
| KrakoaContextual.Contextual | app/src/engine/opcodes/Contextual.ts:8-35 | the handler has exactly the effect of its specification on the runner |
| KrakoaInheritance.InheritanceOp | app/src/engine/opcodes/Inheritance.ts:18-68 | the handler never touches the stack, the status, `ESP` or `BSP`, and throws exactly when the instruction has no params |
| KrakoaInheritance.HandleInheritance | app/src/engine/opcodes/Inheritance.ts:36-52 | `handleInheritance` never throws and changes nothing but `IP`; on success `IP` is the address just before the instruction, and on failure nothing changes |
| KrakoaInheritance.InheritanceGuard | app/src/engine/opcodes/Inheritance.ts:36-52 | Inheritance succeeds exactly inside a trigger frame whose return address is the previous address, and then jumps there; otherwise it changes nothing |
| KrakoaInheritance.HandleReturn | app/src/engine/opcodes/Inheritance.ts:18-26 | `handleReturn` never throws and changes nothing but `IP`; on failure nothing changes |
| KrakoaInheritance.ReturnMoves | app/src/engine/opcodes/Inheritance.ts:18-26 | Return succeeds exactly when the frame at `BSP` holds a return address other than `IP`, and then jumps to it; otherwise it changes nothing |
| KrakoaInheritance.OtherModeFails | app/src/engine/opcodes/Inheritance.ts:57-66 | any other mode fails and changes nothing |
| KrakoaInheritance.Inheritance | app/src/engine/opcodes/Inheritance.ts:57-68 | the handler has exactly the effect of its specification on the runner |
| KrakoaSpeech.AppendLog | app/src/engine/opcodes/Speech.ts:37-38 | a log append succeeds exactly when the log is missing or an array, and then sets the log to the old one plus the record |
| KrakoaSpeech.BroadcastFrom | app/src/engine/opcodes/Speech.ts:86-100 | a broadcast keeps the stack's height |
| KrakoaSpeech.SpeechOp | app/src/engine/opcodes/Speech.ts:8-108 | speech never throws out of the handler and never changes a register or the stack's height |
| KrakoaSpeech.OtherKindFails | app/src/engine/opcodes/Speech.ts:18-19 | an instruction of any other type fails and changes nothing |
| KrakoaSpeech.Communicate | app/src/engine/opcodes/Speech.ts:26-55 | `handleCommunication` never throws, keeps every register and the stack's height, touches only the frame at `BSP`, and changes nothing on failure |
| KrakoaSpeech.CommunicationAppends | app/src/engine/opcodes/Speech.ts:26-55 | a communication succeeds exactly when the frame's log can be pushed to, and then appends one record to it, changing nothing else |
| KrakoaSpeech.Signal | app/src/engine/opcodes/Speech.ts:60-103 | `handleSignal` never throws and keeps every register and the stack's height |
| KrakoaSpeech.SignalCurrent | app/src/engine/opcodes/Speech.ts:70-78 | writing the record to the current frame keeps the stack's height and touches only the frame at `BSP`, which is the one the broadcast then skips |
| KrakoaSpeech.SignalStaysLocal | app/src/engine/opcodes/Speech.ts:60-103 | a signal that is not a broadcast changes only the current frame, where it appends one record |
| KrakoaSpeech.BroadcastAppends | app/src/engine/opcodes/Speech.ts:86-100 | a broadcast appends the record to every frame from the start index except the current one, and leaves the others alone |
| KrakoaSpeech.BroadcastSucceeds | app/src/engine/opcodes/Speech.ts:86-100 | a broadcast succeeds exactly when every frame it visits has a pushable log |
| KrakoaSpeech.BroadcastReachesAll | app/src/engine/opcodes/Speech.ts:70-103 | a broadcast signal appends one record to every frame of the stack, the current one included |
| KrakoaSpeech.Speech | app/src/engine/opcodes/Speech.ts:8-21 | the handler has exactly the effect of its specification on the runner |
| KrakoaSpeech.HandleCommunication | app/src/engine/opcodes/Speech.ts:26-55 | the communication branch has the effect of `Communicate` |
| KrakoaSpeech.HandleSignal | app/src/engine/opcodes/Speech.ts:60-108 | the signal branch has the effect of `Signal` |
| KrakoaExecution.HandlerFor | app/src/engine/KrakoaRunner.ts:39-47 | only the seven opcodes of the dispatch table have a handler |
| KrakoaExecution.ImplicitReturn | app/src/engine/KrakoaRunner.ts:139-151 | the implicit return moves `IP` back to the scope's address exactly when the machine returns implicitly, and changes nothing else |
| KrakoaExecution.ExecuteOp | app/src/engine/KrakoaRunner.ts:132-158 | execution keeps `ESP` on the top frame and never changes the status |
| KrakoaExecution.StepOp | app/src/engine/KrakoaRunner.ts:63-88 | a step keeps `ESP` on the top frame; a halted machine stays halted, and only a running one can still be running afterwards |
| KrakoaExecution.Dispatch | app/src/engine/KrakoaRunner.ts:135-136 | every handler keeps `ESP` on the top frame and the status unchanged |
| KrakoaExecution.UndefinedKindFails | app/src/engine/KrakoaRunner.ts:133-134 | an instruction without a type fails and changes nothing |
| KrakoaExecution.UnknownKindSucceeds | app/src/engine/KrakoaRunner.ts:135-136 | an instruction of an unknown type succeeds, changing at most `IP` through the implicit return |
| KrakoaExecution.ImplicitReturnRule | app/src/engine/KrakoaRunner.ts:138-153 | after a successful handler, control returns to the scope exactly when the scope frame is an idle trigger frame whose return address is the previous address |
| KrakoaExecution.StepNoOp | app/src/engine/KrakoaRunner.ts:64-67 | a halted machine, or one with no instruction at `IP`, fails the step and changes nothing |
| KrakoaExecution.StepSucceedsAfterFetch | app/src/engine/KrakoaRunner.ts:72-87 | once an instruction is fetched, a handler failure does not make the step fail |
| KrakoaExecution.StepAdvances | app/src/engine/KrakoaRunner.ts:76-85 | when the handler left `IP` alone, the step moves to the first successor if it is below the instruction count, and halts otherwise; a handler's own jump is kept |
| KrakoaExecution.StallOnMinusOne | app/src/engine/KrakoaRunner.ts:79-81 | a successor of -1 leaves the machine running at `IP` -1, where the next step fails |
| KrakoaExecution.StepFailsOnlyWithoutInstruction | app/src/engine/KrakoaRunner.ts:63-88 | a failed step means the machine was halted or had no instruction at `IP`, and changed nothing |
| KrakoaExecution.Execute | app/src/engine/KrakoaRunner.ts:132-158 | dispatch and implicit return have exactly the effect of `ExecuteOp` on the runner |
| KrakoaExecution.Step | app/src/engine/KrakoaRunner.ts:63-88 | a step has exactly the effect of `StepOp` on the runner |
| KrakoaExecution.Run | app/test_deadpool.ts:17-23 | the driver runs at most its budget of steps, each one `StepOp` on the machine the previous one left, starting from the runner's state; it ends in the state the last successful step left, or in the effect of the failed or throwing step; it stops on halt, on the budget, or on a step that failed because there was no instruction; a halted machine is left as it was |
| KrakoaExecution.NextStep | app/src/engine/KrakoaRunner.ts:63-88 | one more step of a run extends its trace by the new state when it succeeds, and otherwise has the effect `StepOp` gives for the failed or throwing step |
| KrakoaExecution.RunSnoc | app/src/engine/KrakoaRunner.ts:63-88 | a run followed by one more successful step is a run |
| KrakoaEvaluator.Chain | app/src/engine/KrakoaEvaluator.ts:22-32 | the chain walk visits stack frames at strictly decreasing indices, starting at `BSP`, and visits none when `BSP` is outside the stack |
| KrakoaEvaluator.ChainFindFirst | app/src/engine/KrakoaEvaluator.ts:22-32 | the chain walk finds a property exactly when some frame on the chain holds it, and then takes the first such frame's value |
| KrakoaEvaluator.ScanFindHighest | app/src/engine/KrakoaEvaluator.ts:35-38 | the reverse scan finds a property exactly when a frame holds it, and then takes the highest such frame's value |
| KrakoaEvaluator.FindInStack | app/src/engine/KrakoaEvaluator.ts:20-41 | the lookup reads the property in the first frame on the `__BSP` chain from `BSP` that holds it; when none on the chain does, in the highest frame of the whole stack that holds it; and `undefined` when no frame holds it |
| KrakoaEvaluator.FindInStackFound | app/src/engine/KrakoaEvaluator.ts:20-41 | the lookup reads undefined when no frame holds the property, and otherwise the value of a frame that holds it |
| KrakoaEvaluator.FallbackIsHighest | app/src/engine/KrakoaEvaluator.ts:34-40 | when no frame on the chain holds the property, the lookup reads the highest frame that does |
| KrakoaEvaluator.Find | app/src/engine/KrakoaEvaluator.ts:20-41 | the two lookup loops compute the lookup of the specification |
| KrakoaEvaluator.TagsDefaultFalse | app/src/engine/KrakoaEvaluator.ts:46-51 | through the `Tags` view a missing key, or missing tags, read `false`; a present key reads its value |
| KrakoaEvaluator.Evaluate | app/src/engine/KrakoaEvaluator.ts:57-73 | a value that is not a lambda is handed back unchanged; a lambda that returns normally yields what it returned, and one that throws yields undefined |
| KrakoaGraph.DedupeFacts | app/src/engine/GraphManager.ts:51 | removing duplicates keeps exactly the same tags, without repeats, in first-occurrence order |
| KrakoaGraph.Merge | app/src/engine/GraphManager.ts:45-53 | merging keeps the registry and the number of nodes, and changes no node but the target (its full effect is stated by `MergeFacts`) |
| KrakoaGraph.MergeFacts | app/src/engine/GraphManager.ts:45-53 | merging changes only the target node: params are overridden key by key by the source, a non-empty source body is appended, and the tags become the union without repeats, each in the order of its first occurrence in the target's tags followed by the source's |
| KrakoaGraph.MergeEvolves | app/src/engine/GraphManager.ts:45-53 | merging two nodes with the same id keeps the graph closed, keeps every id and keeps the registry |
| KrakoaGraph.ResolveIn | app/src/engine/GraphManager.ts:40-43 | `resolve`: a store node whose id is registered gives the registered node; a plain value whose `params.id` is truthy and registered gives the registered node too; anything else is returned as it is, so the result is the input or a registered node |
| KrakoaGraph.ResolveRegistered | app/src/engine/GraphManager.ts:40-43 | a node reference whose id is registered resolves to the registered node; any other resolves to itself |
| KrakoaGraph.ResolveKey | app/src/engine/GraphManager.ts:32-33 | a truthy param under the key is replaced by its resolution; a missing or falsy one leaves the params as they were, and no other key changes |
| KrakoaGraph.Finish | app/src/engine/GraphManager.ts:30-34 | the end of the callback resolves the ends of a `:trigger` node and leaves every other node's state as it was; the node goes on as itself |
| KrakoaGraph.ResolveEnds | app/src/engine/GraphManager.ts:30-34 | resolving a trigger's `from` and `to` keeps the graph closed, with ids and registry unchanged; only that node changes, and its params become those with `from`, then `to`, resolved when truthy |
| KrakoaGraph.Register | app/src/engine/GraphManager.ts:16-24 | a node without an id is its own active node; a node with a new id is registered under it unchanged and stays active; a node with a known id is merged into the registered node, which becomes the active one |
| KrakoaGraph.ProcessNode | app/src/engine/GraphManager.ts:12-37 | processing a node keeps the graph closed and registers its id; the node it returns is the registered node for its id, or itself when it has none |
| KrakoaGraph.ProcessList | app/src/engine/GraphManager.ts:11-38 | processing a list returns one entry per input node and keeps the graph closed |
| KrakoaGraph.ProcessMapsEntries | app/src/engine/GraphManager.ts:11-38 | each processed entry is the input node when it has no id, and otherwise the node finally registered under its id |
| KrakoaGraph.ProcessListReaches | app/src/engine/GraphManager.ts:16-24 | after processing a list, every id in it is registered |
| KrakoaGraph.SelfNestedNeverEnds | app/src/engine/GraphManager.ts:21-27 | a registered node whose body begins with a node of its own id recurses without end |
| KrakoaGraph.NestedSameIdNeverEnds | app/src/engine/GraphManager.ts:16-27 | a new node whose first child has the same id never finishes processing |
| KrakoaGraph.GraphManager.constructor | app/src/engine/GraphManager.ts:7-9 | building the manager processes the whole forest from an empty registry, and the root is the processed forest |
| KrakoaGraph.GraphManager.Process | app/src/engine/GraphManager.ts:11-38 | the per-node loop has exactly the effect of `ProcessList` |
| KrakoaGraph.GraphManager.ProcessOne | app/src/engine/GraphManager.ts:13-36 | one node's processing has exactly the effect of `ProcessNode` |
| KrakoaGraph.GraphManager.RegisterOne | app/src/engine/GraphManager.ts:16-24 | the registry step has exactly the effect of `Register` |
| KrakoaGraph.GraphManager.FinishOne | app/src/engine/GraphManager.ts:30-36 | the trigger step has exactly the effect of `Finish` |
| KrakoaGraph.GraphManager.MergeNodes | app/src/engine/GraphManager.ts:45-53 | merging in place has exactly the effect of `Merge` and leaves the root alone |
| KrakoaGraph.GraphManager.Resolve | app/src/engine/GraphManager.ts:40-43 | a store node, or a plain value, whose `params.id` is truthy and registered resolves to the registered node; anything else resolves to itself |
| KrakoaGraph.GraphManager.GetGraph | app/src/engine/GraphManager.ts:55-57 | the graph handed out is the list of processed root entries |
| KrakoaGraph.GraphManager.GetEntity | app/src/engine/GraphManager.ts:59-61 | an entity is found exactly when its id is registered, and it is the registered node |

## Left out

- Logging, `console` output and the `async` wrappers of the handlers are not modelled. Each handler is one synchronous state change.
- Time: `Date.now()` is a parameter (`now`, `clock`), and each handler call uses one stamp. A broadcast therefore stamps every record with the same time. The driver `Run` takes the clock as a function of the step number.
- Running a lambda's code (`new Function`) is not modelled. `KrakoaEvaluator.Evaluate` takes it as a function parameter, with `None` standing for a throw.
- The runner's private `evalLambda` (which reads a `StackPointer` register) is not modelled, because nothing calls it.
- Plugin registration and the plugin test are not modelled, because the runner has no such method.
- The parser, the zod schema validation (treated as the identity), file I/O, the watcher, the REPL and the database are not modelled.
- `KrakoaValues.ToKey`: key conversion covers strings, numbers, booleans, `undefined` and `null`. Arrays and objects both become `[object Object]`; JavaScript joins an array's items instead.
- Prototype keys (`toString` and the like) are not modelled. The `in` operator sees only own keys.
- Registers that the source could fill with non-numbers, such as an undefined `__retAddress` or `next[1]`, are modelled as -1 (no address).
- `KrakoaSpeech.Speech`: the opcode labels are taken to be the `💬` and `📡` of the runner's table. The file's text shows them mis-encoded, in which case every speech instruction would fail.
- `KrakoaReferences.VerifyReference`: an object segment makes the source throw on `replace`. The model treats it as a failing reference, because compilation aborts in both cases.
- `KrakoaReferences.ReferenceHoldsIsSound`: only soundness is proved. The walk commits to the first matching child, so a path that goes through a later sibling is missed.
- `KrakoaGraph.ProcessNode`: the graph's recursion is bounded by a fuel argument. Running out of fuel stands for the stack overflow of a node that contains itself by id, proved for `SelfNestedNeverEnds` and `NestedSameIdNeverEnds`. Results are stated only for runs that finish.
- `KrakoaGraph.GraphManager.Process`: no idempotence of processing is claimed, since merged bodies grow on every pass.
- In the graph manager, ids are compared structurally as values. A JavaScript `Map` keyed by an object id compares by identity instead.
- In the graph manager, tags are strings.
- In the graph manager, the params object that a merge replaces is a fresh value per node. Sharing one params object between two nodes is not modelled.
- `KrakoaExecution.Run`: the budget is a parameter. The driver script's fixed limit of 500 is one instance.
- `KrakoaLink.Compile`: the semantic error names some reference tag that fails. The source throws on the first bad reference it meets, node by node in pre-order and tag by tag (`app/src/engine/KrakoaCompiler.ts:236-244`); the model does not state which failing tag is reported.
- `KrakoaReferences.NodeKey`: an id that is not a string reads as no id. In the source, `node.params?.id?.replace(...)` (`app/src/engine/KrakoaCompiler.ts:174` and `:203`) throws for an id that is present but not a string, which aborts compilation; the model goes on searching instead.
- `KrakoaLinearize.Linear`: every instruction is stamped with the same `clock` value. The source reads `Date.now()` once per instruction (`app/src/engine/KrakoaCompiler.ts:234`), so its stamps can differ from one instruction to the next.
- `KrakoaContextual.StringFields`: a string spreads into one key per Dafny character. JavaScript's `{..."s"}` gives one key per UTF-16 code unit, so a character outside the Basic Multilingual Plane, such as an emoji, gives two keys in the source and one in the model.
- `KrakoaPool.PoolFields`: an object's fields are visited in list order, and `KrakoaPool.DecodeFields` and `KrakoaSolve.SolveFields` do the same. JavaScript's `for...in` (`app/src/engine/KrakoaCompiler.ts:74` and `:140`, `app/src/engine/KrakoaRunner.ts:194`) visits integer-like keys first, in ascending order, and then the other keys in insertion order. For an object with integer-like keys, the source therefore fills the text pool in a different order.
