# The core of Lua 5.1, modelled and proved

A Dafny model of the parts of Lua 5.1 whose correctness is hardest to see by reading them:

* **The expression code generator** (`lcode.c`) and the virtual machine that runs its code
  (`lvm.c`): one pass over the source, delayed expression descriptors, registers used as a
  stack, and jump lists threaded through the offsets of unfinished jumps. `Vm.dfy` gives source
  expressions their value and code its runs; `Simulation.dfy`, `Describe.dfy`,
  `Transitions.dfy` and `Compose.dfy` say what a descriptor means for unfinished code, and what
  each change to the code does to that meaning; `CodeFacts.dfy` ties this to lists and labels;
  `CodeGenerator.dfy` is the class with the source's methods. `Ordinary.dfy` says what compiled
  expressions return when numbers are computed and compared as real numbers are.
* **The incremental garbage collector** (`lgc.c`), with the program's steps that it must live
  with: allocation, stores with barriers, stack stores without, upvalues found and closed
  (`lfunc.c`), strings interned (`lstring.c`). `Objects.dfy` defines the heap and reachability;
  `MarkFacts.dfy`, `HeapFacts.dfy`, `StepFacts.dfy`, `SweepFacts.dfy` and `MutatorFacts.dfy` hold
  the lemmas about heap and marks; `Collector.dfy` is the class.
* **Tables** (`ltable.c`): the array part, the hash part with Brent's variation, and the rehash
  that chooses their sizes. `NodeFacts.dfy`, `TableFacts.dfy`, `SizeFacts.dfy`, `Table.dfy`.
* **Pattern matching** (`lstrlib.c`): the backtracking matcher against a declarative account of
  all the ways to match. `Pattern.dfy`, `PatternFacts.dfy`, `Matcher.dfy`.
* **Precedence climbing** (`src/parse.zig`): `Precedence.dfy`.
* **Quicksort** (`ltablib.c`): `SortFacts.dfy`, `Sort.dfy`.
* **Two round trips**: binary chunks (`ldump.c`, `lundump.c`; `Chunk.dfy`, `DumpLoad.dfy`) and
  quoted strings (`lstrlib.c`, `llex.c`; `Quoting.dfy`).

Code that changes its state step by step is a class or a method here too, and its contract ties
the new state to the old one or to a specification function; the specification functions are
related to each other by lemmas.

## How the main results are stated

*Compiler.* `Described(g, p, here, st, ts, fs)` speaks of every run of the unfinished code `p`:
if a run of the code before the expression got to its start with registers `r0`, then the run of
`p` ends in one of three ways. It is at the end of the code, or at a jump of `here` that will lead
there, and stage `st` gives the value of the expression in `r0`. Or it has left through a
jump of the true list `ts` (the false list `fs`) and the value is true (false), and is in the source register of the
jump's `TESTSET` if it has one. Or it raised the error that the expression raises. Registers below
the first free one are unchanged. Every method keeps this statement for the new expression, and at
the end `CompileReturn` turns it into a statement about complete code.

*Collector.* `Inv()` has three parts: the lists and the string table describe the heap; no live
object refers to a dead one and all roots are live; and what the phase of the collector requires.
Every step, of the collector or of the program, keeps it. `Reduced` says what a step of the collector
may do to the heap at all: objects go, a thread loses those of its open upvalues that went, and the
upvalues of a thread that went are closed.

*Table.* `Lookup` is the value the two parts give a key, `Contents` the map of all keys with a
value other than nil. `Order` is a ghost rank that shows the chains to be acyclic.

*Matcher.* A way to match is a list of numbers, one repetition count for each repeatable item.
`Play` says what a way matches, or that it fails, or that it arrives at an item that cannot be used;
`Preferred` orders the ways as the manual describes (longest first, or shortest first for `-`).
`Right` says that the matcher's result is that of the first way that does not fail.

## Model

| member | source | states |
|---|---|---|
| CodeGenerator.CompileReturn | lua-5.1/src/lcode.c:304-801 | For every expression over the parameters of a function, the code of `return e` returns the value of `e`, or raises its error, whatever the parameters are. Compilation fails only when the code, the constants or the registers (`Depth`) reach their limit, and code and constants are at most linear in the size of `e`. |
| Ordinary.CompileOrdinary | lua-5.1/src/lvm.c:407-585 | Where numbers are real numbers, the compiled expression returns the value that the manual gives it, written with Dafny's own arithmetic, comparisons and conditions (`Calc`), whatever the parameters are. |
| Ordinary.CalcRight | lua-5.1/src/lvm.c:407-585 | The meaning of source expressions used by the compiler theorem is the manual's, for every tree to which the manual gives a value without metamethods. |
| Ordinary.CompileComparison | lua-5.1/src/lcode.c:673-686 | For each of the six comparisons, `return x op y` is always compiled, and returns whether `x op y`, for numerals and for parameters. |
| Ordinary.Exchanged | lua-5.1/src/lcode.c:679-683 | In any environment `a > b` has the outcome of `b < a`, and `a >= b` that of `b <= a`, if neither operand raises an error. |
| CodeGenerator.FuncState.SubExpr | lua-5.1/src/lparser.c:828-852 | The calls the parser makes for a tree (`luaK_prefix`, `luaK_infix`, `luaK_posfix`) leave a descriptor whose code means the tree; registers below the first free one and all jumps pending for others are untouched; registers stay within `Depth`. |
| CodeGenerator.FuncState.CondExpr | lua-5.1/src/lparser.c:965-972 | A compiled condition: control is at the end of the code exactly when it is true, and has left through the false list exactly when it is not. |
| CodeGenerator.FuncState.RetStat | lua-5.1/src/lparser.c:1238-1267 | A `return` of one expression: every run that reaches it halts with the value of the expression there, or its error; other runs are as before. |
| CodeGenerator.FuncState.Exp2NextReg | lua-5.1/src/lcode.c:414-419 | The value of an arbitrary descriptor, with any nest of pending jumps, ends up in the first free register, which is the only one taken. |
| CodeGenerator.FuncState.Exp2Reg | lua-5.1/src/lcode.c:390-411 | All jumps of both lists are resolved, some to the Boolean loads and some past them with their value, and each way the register gets the value of the expression. |
| CodeGenerator.FuncState.Exp2AnyReg | lua-5.1/src/lcode.c:422-433 | The value is in some register: where it already is if it has one and no jumps; nothing is emitted then. |
| CodeGenerator.FuncState.Exp2RK | lua-5.1/src/lcode.c:444-469 | The operand code denotes the value, as a register or a constant below the limit; a descriptor that is in this form already changes nothing. |
| CodeGenerator.FuncState.GoIfTrue | lua-5.1/src/lcode.c:539-560 | Control falls through exactly when the expression is true and leaves through the false list exactly when it is false; the true list is empty. |
| CodeGenerator.FuncState.GoIfFalse | lua-5.1/src/lcode.c:563-583 | The dual: falls through exactly when false, leaves through the true list exactly when true; the false list is empty. |
| CodeFacts.ConditionExact | lua-5.1/src/lcode.c:539-583 | A described condition is exact for every run, in both directions and for both senses, errors included. |
| CodeGenerator.FuncState.JumpOnCond | lua-5.1/src/lcode.c:524-536 | A test and its jump, made from the operand of a `NOT` that is taken back or from a register, mean that the jump is taken on the condition; jumps pending to here survive the removal. |
| CodeGenerator.FuncState.CodeNot | lua-5.1/src/lcode.c:586-618 | The descriptor denotes the negation, by folding, inverting the comparison or new code; the lists are exchanged and their jumps lose their values. |
| CodeGenerator.FuncState.CodeArith | lua-5.1/src/lcode.c:653-670 | Folded or emitted, the result is that of the operator on both operands in source order, with errors in that order; both temporaries are freed. |
| CodeGenerator.FuncState.CodeComp | lua-5.1/src/lcode.c:673-686 | The comparison, with exchanged operands for `>` and `>=`, is an open test that means the source operator. |
| CodeGenerator.FuncState.Prefix | lua-5.1/src/lcode.c:689-707 | The descriptor denotes the unary operator on what it denoted; folding never makes NaN. |
| CodeGenerator.FuncState.PosfixLogic | lua-5.1/src/lcode.c:737-752 | `and` and `or`: the jumps of the first operand joined to a list of the second give the meaning of the operator. |
| Compose.ShortCircuit | lua-5.1/src/lcode.c:737-752 | The meaning of `and`/`or` from that of both operands' code, for all runs and any lists. |
| Compose.Finish | lua-5.1/src/lcode.c:390-411 | Whatever way control leaves an expression, by falling through or by any jump of either list, its value is in the register at the end. |
| CodeGenerator.FuncState.Concat | lua-5.1/src/lcode.c:185-196 | Two disjoint lists become the list of the first followed by the second; nothing but jumps of the first list is changed. |
| CodeGenerator.FuncState.PatchListAux | lua-5.1/src/lcode.c:150-160 | Exactly the jumps of the list get their targets, value and non-value jumps apart, and exactly their `TESTSET`s get a register or lose their value; failure only when a jump is too long. |
| CodeGenerator.FuncState.PatchToHere | lua-5.1/src/lcode.c:179-182 | The list joins the jumps pending to the next instruction, which `Code` then resolves to it. |
| CodeGenerator.FuncState.Code | lua-5.1/src/lcode.c:789-801 | Every jump pending to here, and no other, now leads to the new instruction. |
| CodeGenerator.FuncState.EmitNil | lua-5.1/src/lcode.c:35-56 | The three ways to make registers nil: nothing at the start of a function, a longer `LOADNIL` when no jump leads between, or a new one. |
| CodeGenerator.FuncState.AddK | lua-5.1/src/lcode.c:229-247 | The index holds the constant, known constants keep theirs; failure only when the table is full. |
| Collector.GlobalState.Perform | lua-5.1/src/lgc.c:556-607 | Any step of collector or program keeps `Inv` and frees nothing that was reachable. A collector step leaves reachable objects and the roots as they were, and does nothing to the heap but free other objects (`Reduced`). Each step of the program has exactly its own effect on the heap (`Effect`), and none if the program may not take it. |
| Collector.GlobalState.Run | lua-5.1/src/lgc.c:610-632 | For every run, however the collector and the program interleave: what is reachable at a moment is in the heap at the next. |
| Collector.GlobalState.TriColour | lua-5.1/src/lgc.c:69-112 | In every state with `Inv`: no black object refers to a white one while marking, threads and open upvalues are never black, gray objects still to be traversed are on exactly one list, and no reachable object is dead. |
| Collector.GlobalState.SingleStep | lua-5.1/src/lgc.c:556-607 | One step keeps all reachable objects with their contents, changes nothing else but by freeing objects, and brings the end of the cycle nearer: a well-founded measure goes down in every phase. |
| Collector.GlobalState.FullGc | lua-5.1/src/lgc.c:635-658 | From any state of the collector it terminates, and what remains is exactly what was reachable, with its contents, and fixed objects; all of it white. Open upvalues of threads that remain stay open. |
| SweepFacts.ThreadsKept | lua-5.1/src/lgc.c:407-428 | A reachable thread keeps its stack and its list of open upvalues, in order, but for some that are unreachable; a reachable open upvalue stays as it is unless its thread is unreachable and goes, and then it is closed with the same value. |
| Collector.GlobalState.Atomic | lua-5.1/src/lgc.c:525-553 | Afterwards no live object refers to a dead one and all roots are live; if marking was precise, live objects are reachable. |
| Collector.GlobalState.PropagateMark | lua-5.1/src/lgc.c:277-320 | Traversing a gray object keeps the marking invariant and makes progress; precisely what it leads to is marked. |
| Collector.GlobalState.ReallyMark | lua-5.1/src/lgc.c:69-112 | Marking keeps the marking invariant, marks only what the object leads to, and uses up white objects. |
| Collector.GlobalState.RemarkUpvals | lua-5.1/src/lgc.c:515-522 | Values of open upvalues of threads that were not reached are marked all the same. |
| Collector.GlobalState.SweepObject | lua-5.1/src/lgc.c:407-428 | One turn of the sweep, over objects or the open upvalues of a thread, frees the dead and repaints the living; nothing live is lost, and only the upvalues of a thread that goes are closed. |
| Collector.GlobalState.SweepBucket | lua-5.1/src/lgc.c:572-580 | One bucket of the string table is swept; nothing live is lost. |
| Collector.GlobalState.BarrierBack | lua-5.1/src/lgc.c:674-682 | After a store into a black table the table is gray and to be traversed again, which restores the invariant. |
| Collector.GlobalState.BarrierForward | lua-5.1/src/lgc.c:661-671 | After a store into any other black object the new reference is marked, or the object repainted when sweeping, which restores the invariant. |
| Collector.GlobalState.LinkUpval | lua-5.1/src/lgc.c:694-709 | A closed upvalue joins the list of all objects with the colour and the barrier that the phase asks for. |
| Collector.GlobalState.NewUdata | lua-5.1/src/lstring.c:96-110 | A userdata joins the list of objects right after the main thread, also in the middle of a sweep; it is white, and the rest of the heap is as it was. |
| Collector.GlobalState.FindUpval | lua-5.1/src/lfunc.c:53-79 | The one open upvalue of the slot, brought back to life if it was dead, or a new one; never two for the same slot. |
| Collector.GlobalState.CloseUpvals | lua-5.1/src/lfunc.c:96-112 | Exactly the open upvalues of the thread at or above the level are closed, with the value of their stack slot, or freed if they were dead; the others stay in order, and nothing else changes. |
| Collector.GlobalState.SetUpval | lua-5.1/src/lvm.c:451-456 | The store goes to the stack slot of an open upvalue, or into a closed one, with its barrier; the rest of the heap is as it was. |
| Collector.GlobalState.Intern | lua-5.1/src/lstring.c:50-93 | The one string with the given content, brought back to life if it was dead, or a new one: at any point of a cycle there are never two, and the result is never dead. |
| Collector.GlobalState.Rehash | lua-5.1/src/lstring.c:22-47 | Every string goes to the bucket of its hash in the new table. |
| Tables.Table.SetTable | lua-5.1/src/ltable.c:494-505 | A store changes the contents like that of a plain map, whatever moves inside; it fails for nil, for NaN, and when the table is at its maximal size. |
| Tables.Table.NewKey | lua-5.1/src/ltable.c:399-429 | The new key gets a slot, no other key's value changes, chains stay acyclic and complete; with no free node the table is rehashed, and this ends. |
| Tables.Table.GetFreePos | lua-5.1/src/ltable.c:382-388 | It returns the last free node, and -1 exactly when there is none below `lastfree`; all free nodes stay below. |
| Tables.Table.Get | lua-5.1/src/ltable.c:435-491 | Finds the value of a key, in the array part or along the chain of its main position. |
| Tables.Table.Rehash | lua-5.1/src/ltable.c:333-349 | All values are kept, the array part has its optimal size for the keys in use and the new one, and there is room for the new key. |
| Tables.Table.Resize | lua-5.1/src/ltable.c:297-324 | All values are kept, and the hash part holds just the keys outside the array part; no rehash happens on the way. |
| Tables.Table.NumUseHash | lua-5.1/src/ltable.c:247-260 | The counts by slices are exact for the keys in use. |
| SizeFacts.ComputeSizes | lua-5.1/src/ltable.c:189-208 | The size is 0 or the largest power of two with more than half of its slots in use, `na` is the exact number of keys up to it, and no index is out of range. |
| Tables.Table.Next | lua-5.1/src/ltable.c:162-179 | The first entry with a value after the key; an error exactly for an unknown key. |
| Tables.Table.Traverse | lua-5.1/src/ltable.c:137-179 | A traversal with stores to existing fields in between: no key twice, array part before hash part, and every key whose value never becomes nil once; each key comes with the value it has at that moment, never nil; and the stores to existing fields, and no others, are in the table at the end. |
| Tables.Table.GetN | lua-5.1/src/ltable.c:532-576 | A boundary: zero or an index with a value, followed by one without. |
| Matcher.MatchState.DoMatch | lua-5.1/src/lstrlib.c:365-440 | The ways to match are tried in the order of `Preferred` up to the first that does not fail. If it matches, that is the result, with its captures; if it arrives at an item that cannot be used, the result is an error; if there is no such way the result is failure, with the captures restored. |
| PatternFacts.OneResult | lua-5.1/src/lstrlib.c:365-440 | There is at most one first way, so the three outcomes exclude each other: an error exactly when the first way that does not fail is one that misuses an item. |
| PatternFacts.WellFormedUsed | lua-5.1/src/lstrlib.c:186-223 | A well-formed pattern is never an error, whatever it is matched against. |
| PatternFacts.AlwaysMisused | lua-5.1/src/lstrlib.c:186-223 | Malformed classes, `%b` and `%f`, a `)` without `(`, and references to no capture are errors wherever they are tried. |
| PatternFacts.Repetitions | lua-5.1/src/lstrlib.c:301-326 | Of `.*`, `.+` and `.?` the first way takes as much as there is, of `.-` nothing. |
| PatternFacts.Classes | lua-5.1/src/lstrlib.c:226-242 | The letters of character classes, and their complements in upper case. |
| Matcher.MatchState.MaxExpand | lua-5.1/src/lstrlib.c:301-313 | The greatest number of repetitions after which the rest matches. |
| Matcher.MatchState.MinExpand | lua-5.1/src/lstrlib.c:316-326 | The least number of repetitions after which the rest matches. |
| Matcher.MatchState.MatchBalance | lua-5.1/src/lstrlib.c:281-298 | The end of the balanced text, and failure only if there is none. |
| Matcher.MatchState.Scan | lua-5.1/src/lstrlib.c:495-535 | The first position where some way does not fail, with the preferred match there, or the error; none only if every way fails everywhere. |
| Matcher.MatchState.Gsub | lua-5.1/src/lstrlib.c:644-680 | The result is the source with successive preferred matches replaced and everything else kept, at most `max` of them, and fewer only at the end of the source. With an anchor only position 0 is tried. An error exactly at the first position where the matcher ends with one. |
| PatternFacts.SelfReplacement | lua-5.1/src/lstrlib.c:644-680 | Replacing every match by itself gives back the source, whatever the pattern. |
| Matcher.MemFind | lua-5.1/src/lstrlib.c:444-463 | The first place where the text occurs, and none only if it does not. |
| PatternFacts.PlainSearchExact | lua-5.1/src/lstrlib.c:502-511 | For a pattern without special characters, searching for it as plain text agrees with matching it everywhere, exactly when it has neither `)` nor a zero. |
| PatternFacts.PlainSearchWrong | lua-5.1/src/lstrlib.c:502-511 | For every other such pattern, a source and a position where the two differ. |
| Precedence.ParseExact | src/parse.zig:816-860 | For every limit: a tree is returned exactly when its tokens are those consumed, it respects the priorities and the limit, the next operator does not belong to it, and it is not nested too deeply. |
| Precedence.ParseGrouped | src/parse.zig:816-864 | What `expr` returns, without the priority numbers: the one tree that groups as the table of operators in section 2.5.6 of the Lua 5.1 Reference Manual says, up to a token that is no operator. |
| Precedence.GroupedExact | src/parse.zig:1157-1217 | For every tree, respecting the priority numbers is grouping as the table says. |
| Precedence.TwoOperators | src/parse.zig:1202-1217 | `a o1 b o2 c` groups to the left exactly when `o1` is tighter, or in the same row and left associative. |
| Precedence.UnaryFirst | src/parse.zig:1157-1157 | `u a o b` is `u (a o b)` for `^` only. |
| Precedence.UnarySecond | src/parse.zig:816-833 | `a o u b` is `a o (u b)`. |
| Precedence.Unambiguous | src/parse.zig:1202-1217 | No two trees that respect the priorities have the same tokens. |
| Precedence.Parser.SubExpression | src/parse.zig:816-860 | The loop computes the specified tree, consumes its tokens, returns the untreated operator and restores the level. |
| Precedence.Parser.Expr | src/parse.zig:862-864 | What is parsed is the one expression there is, grouped as the manual's table says, and an error means there is none. |
| Sort.SortList | lua-5.1/src/ltablib.c:256-264 | For every strict weak order: the list is sorted, it is a permutation, and "invalid order function" is never raised. |
| Sort.AuxSort | lua-5.1/src/ltablib.c:193-254 | The range is sorted in place and nothing outside it is touched; recursion is at most logarithmically deep. |
| Sort.Partition | lua-5.1/src/ltablib.c:220-242 | The scans never leave the range; afterwards nothing before the pivot's place is greater and nothing after it less. |
| Sort.SmallerHalf | lua-5.1/src/ltablib.c:243-254 | The part that is sorted by recursion has less than half of the elements. |
| Chunk.DumpRoundTrip | lua-5.1/src/lundump.c:161-181 | Loading the dump of a function that has a source gives it back exactly when every function in it has one (for functions that pass the code check, within the depth limit). |
| Chunk.StripRoundTrip | lua-5.1/src/ldump.c:129-141 | Loading a stripped dump gives the function without debug information, every source being `=?`. |
| Chunk.Header | lua-5.1/src/lundump.c:214-227 | The twelve bytes of the header, each against what it stands for: the signature, version and format, and the byte order and sizes that the writer uses. |
| Chunk.HeaderNeeded | lua-5.1/src/lundump.c:183-190 | A chunk with any other header is not loaded. |
| Chunk.BytesAt | lua-5.1/src/ldump.c:45-53 | Byte `i` of a number is its quotient by `256^i`, modulo 256: the least significant byte comes first. |
| Chunk.Tags | lua-5.1/src/ldump.c:80-109 | A constant starts with the tag of its type. |
| Chunk.StrippedLayout | lua-5.1/src/ldump.c:129-141 | Where the source, the lines, the four sizes and the size of the code are in the dump of a stripped function. |
| DumpLoad.DumpState.DumpChunk | lua-5.1/src/ldump.c:153-164 | The writer gets the specified bytes. |
| DumpLoad.LoadState.LoadChunk | lua-5.1/src/lundump.c:195-209 | Of any bytes the loader makes what the specification says, error cases included, and stops where it says. |
| Quoting.RoundTrip | lua-5.1/src/llex.c:278-331 | The lexer reads back exactly the string that `%q` wrote and stops right after the closing quote, exactly when the line count stays in range. |
| Quoting.AddQuoted | lua-5.1/src/lstrlib.c:696-723 | The buffer gets the quoted string. |
| Quoting.LexState.ReadString | lua-5.1/src/llex.c:278-331 | Of any input the lexer makes what the specification says, error cases included. |
| Quoting.LetterReads | lua-5.1/src/llex.c:293-299 | Each of the seven letters stands for its control character. |
| Quoting.NumberReads | lua-5.1/src/llex.c:303-316 | Up to three decimal digits stand for the character with that code, and above 255 for an error. |
| Quoting.OtherReads | lua-5.1/src/llex.c:303-305 | Any other character after a backslash stands for itself. |
| Quoting.NewlineReads | lua-5.1/src/llex.c:300-301 | A newline of one or two characters after a backslash stands for one newline, and counts as one line. |
| Quoting.PlainBody | lua-5.1/src/lstrlib.c:696-723 | Text without the five special characters is quoted as it is. |

## What was found

* A function in a nest whose `source` is null (and differs from its parent's) does not survive
  dump and load: it comes back with its parent's source (`ldump.c:131`, `lundump.c:165-166`).
  `DumpRoundTrip` has the exact condition.
* `find` takes a pattern without special characters for plain text (`lstrlib.c:502-511`), but its
  list of special characters lacks `)`, and `strpbrk` stops at the first zero while `lmemfind`
  does not: a pattern with `)` is found as text, where matching it is an error. `PlainSearchExact` has the exact condition, `PlainSearchExamples` the smallest cases.
* The lexer accepts a quoted string of any length and content but stops at a chunk of too many
  lines (`llex.c:135-136`); `RoundTrip` has the exact condition.

## Left out

Code generator
* Indexed variables, calls, varargs, concatenation, assignments, `luaK_self` and `luaK_setlist`;
  statements other than `return` of one expression; the rewriting of a nil condition in `cond`.
* Line information. Numbers are reals with uninterpreted arithmetic, for which only one law is
  assumed (`Sem.Sane`): negation gives NaN only for NaN.
- CodeGenerator.CompileReturn: the bound of 40 instructions and constants per node is not tight; that it is linear is what makes failure on small expressions impossible.

Collector
* Weak tables, userdata finalizers, memory accounting and the pacing of steps, and stack shrinking;
  `luaC_freeall`. A dead thread's upvalues are closed before it is unlinked; the source does it after,
  with the same result.
* `nuse` is kept, but not tied to the number of strings; `luaS_fix` is not a step.
* A mutator step whose precondition does not hold is skipped.

Tables
* Dead keys (a key collected while its entry stays in the chain): keys stay comparable.
* Numbers are integers, other numbers are opaque; array parts above 2^26 slots.
* The state after a "table overflow" error, and `luaH_resizearray` to a smaller size.
* The cache of absent metamethods.

Matcher
* Character classes are those of the C locale; characters stand for bytes.
* How captures become Lua values, and the replacement in `gsub` as a string or a table: it is an
  arbitrary function of the match. `gmatch`, and the conversion of negative start positions.

Parser
* Function bodies, table constructors, calls, indices and field accesses: each is part of an
  atom, and no such suffix follows a group.

Sort, chunks, quoting
* Order functions that are not strict weak orders, and errors raised by them.
* Writers that fail; byte orders and number sizes other than the common ones.
* The code checker is an arbitrary predicate of the loaded function.
* The limit on the size of the lexer's buffer.
