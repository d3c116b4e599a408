# Proofs about the algorithms of the repository

This project models the hard algorithms of the repository in Dafny and proves what they are for. VeriFast has
shown most of the C programs memory safe; the properties here are the ones that those proofs leave open: that
marking is exact and restores the graph, that collection and reference counting are invisible to the interpreted
program, that the interpreters compute the right results, that barriers and locks do what they promise under every
interleaving, that the emitted graph algorithms find shortest paths.

`dafny verify dfyconfig.toml` checks everything.

## What is modelled

**The garbage-collected interpreter** (`gcl.c`; `gcl0.c` for the simpler marker). Memory is a map from addresses to
objects; freeing removes an address, so that using a freed object is excluded by the proofs, and `malloc` may
return it again. Class callbacks are a dispatch on the kind of object. Registered C variables are objects of their own
(`Root`), and the global variables are fields of `Heap`. `Marking` holds the theory of pointer reversal, `Sweeping`
that of the object list, `Collector` the code. Every object has a ghost value, the tree that it stands for; since a
value contains the values of the references, published memory is acyclic, and "collection is invisible" becomes: the
values of all registered variables stay the same.

**The language.** `Machine` is one turn of the main loop on values. `BigStep` is an independent definition of what a
program means, call by value with environments, and proves that the machine computes exactly that, in both directions,
for values, output and errors. `Syntax` is recursive descent and printing, inverse to each other. `Reader` and
`Interpreter` are the code of `gcl.c` on the collected heap, proved to follow `Syntax` and `Machine`;
`ReadEvalPrint` connects the tokens of one program to its meaning. `Sessions` says without any bound what a whole
session of programs prints, and `RunPrograms`, the outer loop of `main`, is proved to print exactly that, or the
beginning of it when it is cut short. The main loops of the source do not end; here they take the number of turns as a
parameter, and every statement holds for every number.

**The reference-counted interpreter** (`rcl.c`). The same language on another heap. `Counting` holds the theory of
counts, `CountedHeap` the recursive release, `CountedReader` and `CountedInterpreter` the rest, proved to follow the
same `Machine`. `Agreement` runs both: on the same input they print the same, except that the first may run into its
object limit, and then it has printed the beginning; it also says how many objects are always enough. `HeaderExamples`
is about the two programs in the header of both files. Which references a function owns is stated by a ghost multiset,
the references of local variables besides those of the stacks. The blocks that are allocated but not on the list of
objects are a set, `Loose`, which every operation accounts for: it is empty whenever no object is under construction,
so that counting leaks nothing.

**Concurrency**, as machines whose steps are taken by any thread at any time: the reusable barrier with its mutex
(`Barrier`) and its two-thread client (`BarrierClient`), the chat room (`ChatRoom`, and `ChatProgress` for what it
does for a client), lock ordering in general and the philosophers as an instance (`LockOrder`, `Philosophers`), the
compare-and-swap spinlock and its histories (`Spinlock`). The statements are about the last state of every run, which
is every state of every run; and for each of these machines there are also continuations of every run that do what the
program is for: the lock is taken and released, everybody eats, all threads pass the barrier, a nick is accepted.

**Graph algorithms** emitted as JavaScript: `Walks` is the theory of Dijkstra's algorithm, `Dijkstra` the code on its
arrays, and `Bfs` breadth-first search, proved as the case of unit weights.

**Pointer structures**: trees with stored subtree counts (`CompositeTree`), binary trees that are split at any node
and put together again (`TreeContext`), insertion sort through a pointer to a pointer (`InsertionSort`), and the
arrays and structs of the Pseudo2 runtime (`RuntimeHeap`).

Where code and documentation differ, the code is followed. The header of `rcl.c` (line 29) says that the C program
performs no recursion. That is false of `object_release`, which calls itself through `dispose`: the contract of
`CountedHeap.Heap.Release` says that calls are nested exactly if the object has one reference and keeps references
itself, never deeper than one more than the height of what is released, and at least as deep as any way down on which
each object has a single reference; `ReleaseList` shows that releasing a list of n atoms takes n + 1 levels, so that the
depth of the C stack has no bound.

## Model

| member | source | states |
|---|---|---|
| `Objects.MarkingIsDetermined` | verifast-26.01/examples/gcl.c:413-527 | a set of marks that contains the root, grew only by objects reached around the old marks, and holds the references of everything it grew by, can only be one set: the old marks and what is reached around them |
| `Objects.AvoidingClosedSet` | verifast-26.01/examples/gcl.c:413-527 | if the old marks are closed under references, marking around them adds exactly what is reachable from the root, and the result is closed again |
| `Marking.Enter` | verifast-26.01/examples/gcl.c:894-913 | entering an unmarked object keeps the invariant: the reversed references form a chain that spells out the path from the root |
| `Marking.Swing` | verifast-26.01/examples/gcl.c:915-942 | going on to the next reference restores the one just visited and keeps the invariant |
| `Marking.Leave` | verifast-26.01/examples/gcl.c:484-526 | leaving an object puts its last reference back and keeps the invariant for the objects above it |
| `Marking.FirstVisit` | verifast-26.01/examples/gcl.c:420-483 | an unmarked object that the machine arrives at is reached from the root around the old marks |
| `Marking.Finished` | verifast-26.01/examples/gcl.c:413-527 | when the machine stops, every reference is what it was and the marks are the old ones and what is reached around them |
| `Collector.Heap.StartMarking` | verifast-26.01/examples/gcl.c:458-482 | the call through the class pointer: the first reference is replaced by the parent and returned, nothing else changes; leaves return at once |
| `Collector.Heap.MarkNext` | verifast-26.01/examples/gcl.c:498-524 | the call through the class pointer of the parent: either the next reference is swapped in, or all references are back in place and the object above becomes the parent |
| `Collector.Heap.ConsStartMarking` | verifast-26.01/examples/gcl.c:894-913 | a cons starts with its head and records in tail_is_next that its tail is still to come |
| `Collector.Heap.ConsMarkNext` | verifast-26.01/examples/gcl.c:915-942 | from the head to the tail, or out of the cons with both references restored |
| `Collector.Heap.FunctionStartMarking` | verifast-26.01/examples/gcl.c:1293-1311 | a function object is entered through its data |
| `Collector.Heap.FunctionMarkNext` | verifast-26.01/examples/gcl.c:1313-1330 | a function object is left with its data restored |
| `Collector.Heap.StartBlock` | verifast-26.01/examples/gcl.c:420-483 | one turn at label start_marking keeps the invariant and makes progress |
| `Collector.Heap.NextBlock` | verifast-26.01/examples/gcl.c:484-526 | one turn at label mark_next keeps the invariant and makes progress |
| `Collector.Heap.Mark` | verifast-26.01/examples/gcl.c:413-527 | on every finite graph with cycles and sharing and from every initial marking the pointer-reversing marker ends, restores every reference, and marks exactly what is reached from the root around the old marks |
| `RecursiveMarking.Marker.Mark` | verifast-26.01/examples/gcl0.c:307-363 | the recursive marker has the same contract, so from every initial marking the two mark the same objects |
| `RecursiveMarking.Marker.ConsMark` | verifast-26.01/examples/gcl0.c:686-697 | the head and then the tail are marked, whatever the first of them marked of the second |
| `RecursiveMarking.Marker.FunctionMark` | verifast-26.01/examples/gcl0.c:1016-1024 | the data is marked |
| `RecursiveMarking.ReachesThrough` | verifast-26.01/examples/gcl0.c:307-363 | what a reference reaches around more marks is reached from the object around fewer |
| `Collector.Heap.MarkRoots` | verifast-26.01/examples/gcl.c:529-668 | marking from one root after the other marks exactly what is reachable from some root |
| `Collector.Heap.Sweep` | verifast-26.01/examples/gcl.c:529-668 | the in-place sweep leaves exactly the marked objects, in their old order, unmarked, with unchanged bodies, and a correct count |
| `Sweeping.KeepOne` | verifast-26.01/examples/gcl.c:529-668 | passing a marked object keeps the list linked |
| `Sweeping.DropOne` | verifast-26.01/examples/gcl.c:529-668 | unlinking through the address of the previous link and freeing keeps the list linked |
| `Collector.Heap.Gc` | verifast-26.01/examples/gcl.c:529-668 | after a collection the list holds exactly the objects reachable from the roots in their old order, unmarked, with their fields and values; nil is among them; nothing freed means that everything was reachable |
| `Sweeping.MeaningSurvives` | verifast-26.01/examples/gcl.c:529-668 | what is left after a collection stands for the same values, because nothing that is left refers to anything freed |
| `Sweeping.MeaningIsClosed` | verifast-26.01/examples/gcl.c:698-735 | if every object has a value, no reference dangles |
| `Sweeping.CollectionIsDone` | verifast-26.01/examples/gcl.c:529-668 | marking and sweeping together restore the heap invariant |
| `Collector.Heap.RegisterObject` | verifast-26.01/examples/gcl.c:698-735 | an allocation succeeds, possibly after a collection, with the new object first in the list and all surviving objects and values unchanged, or fails only when a full heap is reachable from the roots; the count never exceeds the limit, nor the number of objects ever registered |
| `Collector.Heap.constructor` | verifast-26.01/examples/gcl.c:1695-1749 | the heap starts with the nil object, which is a root |
| `Collector.Heap.PushRoot` | verifast-26.01/examples/gcl.c:312-321 | registering a variable changes only the list of roots |
| `Collector.Heap.PopRoot` | verifast-26.01/examples/gcl.c:353-362 | the last registered variable is unregistered |
| `Collector.Heap.SetRoot` | verifast-26.01/examples/gcl.c:340-351 | assignment to a registered variable keeps the heap valid |
| `Collector.Heap.CreateCons` | verifast-26.01/examples/gcl.c:954-977 | the new cons stands for the pair of the values of head and tail, which survive a collection because they are registered meanwhile |
| `Collector.Heap.CreateAtom` | verifast-26.01/examples/gcl.c:1059-1072 | the new atom stands for its characters, and all registered variables keep their values |
| `Collector.Heap.CreateFunction` | verifast-26.01/examples/gcl.c:1343-1363 | the new function object stands for the code with the value of its data |
| `Machine.StepIsSafe` | verifast-26.01/examples/gcl.c:1365-1671 | from every state that a program can reach, the only faults of a turn are those of the interpreted program: operands never run out, no internal list is malformed, assoc compares only atoms |
| `Machine.EvalStepIsSafe` | verifast-26.01/examples/gcl.c:1510-1580 | a turn of eval leads to a well-formed state or finds no binding |
| `Machine.PopApplyIsSafe` | verifast-26.01/examples/gcl.c:1392-1398 | a call leads to a well-formed state or to a fault of the program |
| `Machine.PairSteps` | verifast-26.01/examples/gcl.c:1510-1580 | what eval does with a pair is decided by its head: quote, fun, or an application |
| `Machine.EnvLookup` | verifast-26.01/examples/gcl.c:1438-1460 | looking a name up in an environment finds a value or nothing |
| `Machine.OutputGrows` | verifast-26.01/examples/gcl.c:1582-1604 | what has been printed stays printed |
| `BigStep.EvaluateIsRun` | verifast-26.01/examples/gcl.c:1510-1580 | if an expression evaluates to a value with some output, the machine, from an eval continuation on top of any continuations and any operands, comes to those continuations with the value on those operands and the output appended; errors likewise |
| `BigStep.ApplicationIsRun` | verifast-26.01/examples/gcl.c:1510-1580 | an application evaluates its argument, then its function, then calls |
| `BigStep.EvaluateAndCallIsRun` | verifast-26.01/examples/gcl.c:1392-1398 | the function value and the argument value are taken off the stack by the call |
| `BigStep.CallIsRun` | verifast-26.01/examples/gcl.c:1617-1662 | calling a value does what the semantics says of it |
| `BigStep.CallIsTailCall` | verifast-26.01/examples/gcl.c:1617-1662 | calling a closure takes one turn and starts its body on the continuations that were there before the application |
| `BigStep.ApplicationIsTailCall` | verifast-26.01/examples/gcl.c:1510-1662 | from the start of an application of a closure to the start of its body both stacks are back at their old depth |
| `BigStep.TimeoutIsRunning` | verifast-26.01/examples/gcl.c:1751-1802 | if evaluation needs more than depth n, the machine needs more than n turns |
| `BigStep.MachineHaltsIffEvaluates` | verifast-26.01/examples/gcl.c:1751-1802 | the machine halts with a value and an output exactly when evaluation yields them at some depth |
| `BigStep.MachineFailsIffEvaluationFails` | verifast-26.01/examples/gcl.c:1751-1802 | the machine fails with an error after an output exactly when evaluation does |
| `BigStep.RunDecidesEvaluation` | verifast-26.01/examples/gcl.c:1751-1802 | a run that has stopped within n turns shows the outcome of evaluation at depth n |
| `BigStep.DepthDoesNotMatter` | verifast-26.01/examples/gcl.c:1751-1802 | evaluation has the same outcome at every sufficient depth |
| `BigStep.ComputesAgree` | verifast-26.01/examples/gcl.c:1751-1802 | a program has one value and one output |
| `Syntax.ParsePrinted` | verifast-26.01/examples/gcl.c:1083-1168 | parsing the printed form of an expression followed by any tokens gives back the expression and exactly those tokens |
| `Syntax.ParsedIsPrinted` | verifast-26.01/examples/gcl.c:1083-1168 | whatever is parsed is an expression, and exactly its printed form was consumed |
| `Syntax.ParseIffPrint` | verifast-26.01/examples/gcl.c:1083-1168 | both directions as one equivalence |
| `Syntax.ResumeOpened` | verifast-26.01/examples/gcl.c:1083-1168 | opening a pair and going on is what recursive descent does |
| `OpenPairs.HeadFilled` | verifast-26.01/examples/gcl.c:1083-1168 | completing a head disturbs no other open pair |
| `OpenPairs.TailFilled` | verifast-26.01/examples/gcl.c:1083-1168 | completing a tail takes exactly one pair out of the chain of open pairs |
| `OpenPairs.OpenSurvives` | verifast-26.01/examples/gcl.c:1083-1168 | collections during parsing keep the chain of open pairs |
| `Reader.Complete` | verifast-26.01/examples/gcl.c:1105-1156 | a finished expression completes heads and tails outwards as recursive descent would |
| `Reader.Parse` | verifast-26.01/examples/gcl.c:1083-1168 | the non-recursive parser, which keeps its stack in cons tails, returns an object that stands for what recursive descent parses, consumes the same tokens and fails on the same inputs, unless the heap is full |
| `Interpreter.Interp.Push` | verifast-26.01/examples/gcl.c:1173-1185 | the operand stack in the heap gets one more value |
| `Interpreter.Interp.Pop` | verifast-26.01/examples/gcl.c:1187-1215 | the top value, or the underflow error |
| `Interpreter.Interp.PushCont` | verifast-26.01/examples/gcl.c:1217-1229 | the continuation stack gets one more continuation |
| `Interpreter.Interp.PopCont` | verifast-26.01/examples/gcl.c:1231-1263 | the top continuation, or null if there is none |
| `Interpreter.Interp.Assoc` | verifast-26.01/examples/gcl.c:1438-1460 | the loop over the association list finds the value that the recursive lookup finds, fails on the same malformed lists, and ends |
| `Interpreter.Interp.MapCons` | verifast-26.01/examples/gcl.c:1462-1470 | a binding is put in front of the list in a registered variable |
| `Interpreter.Interp.Apply` | verifast-26.01/examples/gcl.c:1365-1390 | applying an object does to the stacks what the machine says, whatever is collected meanwhile; the recursion between apply, eval and pop_apply is at most three calls deep |
| `Interpreter.Interp.EvalFunction` | verifast-26.01/examples/gcl.c:1510-1580 | eval follows the machine |
| `Interpreter.Interp.ApplyForm` | verifast-26.01/examples/gcl.c:1510-1580 | a form is applied to the environments and the unevaluated argument |
| `Interpreter.Interp.ScheduleApplication` | verifast-26.01/examples/gcl.c:1510-1580 | the call, the function expression and the argument expression are scheduled in the order that evaluates the argument first |
| `Interpreter.Interp.FunApplyFunction` | verifast-26.01/examples/gcl.c:1617-1662 | a closure binds its parameter and schedules its body |
| `Interpreter.Interp.PrintAtom` | verifast-26.01/examples/gcl.c:1582-1604 | an atom is printed and nil is pushed, or the argument is refused |
| `Interpreter.Interp.QuoteFunction` | verifast-26.01/examples/gcl.c:1606-1615 | the quoted expression is pushed |
| `Interpreter.Interp.FunFunction` | verifast-26.01/examples/gcl.c:1664-1671 | a closure is pushed |
| `Interpreter.Interp.Initialize` | verifast-26.01/examples/gcl.c:1751-1780 | the forms and the environment are the ones that the semantics starts from, in which exactly print_atom is bound (Sessions.AtomIsPrinted, Sessions.NothingElseIsBound), or a full heap is reachable |
| `Interpreter.Interp.RunLoop` | verifast-26.01/examples/gcl.c:1791-1798 | for every number of turns the interpreter with collections is in the state of the machine that never collects, up to the object limit |
| `Interpreter.Interp.ReadEvalPrint` | verifast-26.01/examples/gcl.c:1784-1801 | from tokens to output: a program prints and computes what the semantics says of the parsed expression, fails with its error, or stops because a full heap is reachable, in which case what was printed is the beginning of the right output |
| `Interpreter.Interp.RunPrograms` | verifast-26.01/examples/gcl.c:1784-1801 | a session of m programs prints what they mean, or the beginning of it if a program takes too many turns or a full heap is reachable |
| `Interpreter.Interp.RunProgram` | verifast-26.01/examples/gcl.c:1784-1801 | one turn of the outer loop goes on with the session or stops it as the program means |
| `Counting.ReferencesOf` | verifast-26.01/examples/rcl.c:77-104 | the sum of all references kept by objects does not depend on their order |
| `Counting.NoGarbage` | verifast-26.01/examples/rcl.c:145-179 | every object on the list of objects is reached from a reference that the program holds, because immutable objects form no cycles |
| `Counting.NothingDangles` | verifast-26.01/examples/rcl.c:145-179 | everything that is reached from a held reference exists |
| `Counting.RefAdded` | verifast-26.01/examples/rcl.c:124-143 | one more held reference, one more on the count |
| `Counting.RefDropped` | verifast-26.01/examples/rcl.c:145-179 | giving up a reference that is not the last one |
| `Counting.LastRefDropped` | verifast-26.01/examples/rcl.c:145-179 | an object whose last reference is given up is referred to by nobody, and the references that it keeps pass to its disposal |
| `Counting.ObjectPublished` | verifast-26.01/examples/rcl.c:289-296 | a finished object takes over the references in its fields |
| `CountedHeap.Heap.AddRef` | verifast-26.01/examples/rcl.c:124-143 | counts stay the numbers of references |
| `CountedHeap.Heap.Release` | verifast-26.01/examples/rcl.c:145-179 | the recursive release ends, frees nothing that is still referred to, keeps counts, values and all other references, and loses no block; it calls itself exactly if the object has one reference and keeps references itself, at most as deep as what is released is high, at least as deep as any way down through objects with a single reference is long |
| `CountedHeap.Heap.ConsDispose` | verifast-26.01/examples/rcl.c:228-237 | both references of a cons are given up and the cons is freed |
| `CountedHeap.Heap.FunctionDispose` | verifast-26.01/examples/rcl.c:550-558 | the reference to the data is given up and the function object is freed |
| `CountedHeap.Heap.ReleaseBoth` | verifast-26.01/examples/rcl.c:228-237 | two references are given up in a row; the nesting is the deeper one of the two |
| `CountedHeap.Heap.ReleaseList` | verifast-26.01/examples/rcl.c:28-31 | the nesting of releases has no bound, against the header: a list of n atoms, created here, takes n + 1 levels to release |
| `CountedHeap.Heap.CreateList` | verifast-26.01/examples/rcl.c:289-296 | a list of n atoms of height n whose cells have a single reference each |
| `Counting.OneMoreLevel` | verifast-26.01/examples/rcl.c:145-179 | releasing the last reference to an object is nested one level deeper than releasing what it keeps |
| `Counting.LonePathSurvives` | verifast-26.01/examples/rcl.c:145-179 | releasing something else leaves the single references on a way down from an object that survives |
| `CountedHeap.Heap.DestructCons` | verifast-26.01/examples/rcl.c:298-325 | the reference to a cons is exchanged for references to its parts |
| `CountedHeap.Heap.CreateCons` | verifast-26.01/examples/rcl.c:289-296 | references to head and tail are exchanged for one to the new cons |
| `CountedHeap.Heap.CreateFunction` | verifast-26.01/examples/rcl.c:562-590 | the reference to the data is exchanged for one to the function object |
| `CountedHeap.Heap.NothingLeaks` | verifast-26.01/examples/rcl.c:145-179 | in every valid state each allocated block is under construction, or it is reached from a held reference or nil |
| `CountedReader.Parse` | verifast-26.01/examples/rcl.c:396-443 | the parser of rcl.c, which builds pairs off the list of objects, parses what recursive descent parses, gives its caller one reference, and leaves no cell off the list of objects |
| `CountedInterpreter.Interp.Assoc` | verifast-26.01/examples/rcl.c:662-771 | lookup is right, gives up the reference to the list, and every reference that it obtains on the way |
| `CountedInterpreter.Interp.MapCons` | verifast-26.01/examples/rcl.c:773-780 | references to key, value and map are exchanged for one to the longer list |
| `CountedInterpreter.Interp.Apply` | verifast-26.01/examples/rcl.c:621-649 | applying an object follows the machine and consumes exactly its own reference |
| `CountedInterpreter.Interp.PopApplyFunction` | verifast-26.01/examples/rcl.c:651-660 | the call follows the machine and gives up its data |
| `CountedInterpreter.Interp.EvalFunction` | verifast-26.01/examples/rcl.c:799-886 | eval follows the machine in all its branches and neither loses nor keeps a reference |
| `CountedInterpreter.Interp.FunApplyFunction` | verifast-26.01/examples/rcl.c:929-958 | a closure call follows the machine and is balanced |
| `CountedInterpreter.Interp.FunFunction` | verifast-26.01/examples/rcl.c:960-971 | building a closure follows the machine and is balanced |
| `CountedInterpreter.Interp.QuoteFunction` | verifast-26.01/examples/rcl.c:913-927 | quoting follows the machine and is balanced |
| `CountedInterpreter.Interp.PrintAtom` | verifast-26.01/examples/rcl.c:888-911 | printing follows the machine and is balanced |
| `CountedInterpreter.Interp.RunLoop` | verifast-26.01/examples/rcl.c:1084-1092 | the reference-counted interpreter is in the state of the same machine after every number of turns |
| `CountedInterpreter.Interp.ReadEvalPrint` | verifast-26.01/examples/rcl.c:1070-1098 | a program prints what the semantics says, and afterwards the program holds the same references as before it and every allocated block is on the list of objects |
| `CountedInterpreter.Interp.NothingIsLeft` | verifast-26.01/examples/rcl.c:1070-1098 | between programs every block that is allocated is needed by the forms, the environment or nil |
| `CountedInterpreter.Interp.RunPrograms` | verifast-26.01/examples/rcl.c:1070-1098 | a session of m programs prints what they mean, or the beginning of it if a program takes too many turns; afterwards nothing is left over |
| `CountedInterpreter.Interp.RunProgram` | verifast-26.01/examples/rcl.c:1070-1098 | one turn of the outer loop goes on with the session or stops it as the program means |
| `Sessions.MeaningIs` | verifast-26.01/examples/gcl.c:1-40 | what an expression means does not depend on the depth at which it is evaluated |
| `Sessions.PartIsPrefix` | verifast-26.01/examples/gcl.c:1784-1801 | a program that is interrupted after any number of turns has printed the beginning of what it means |
| `Sessions.SessionIsFaithful` | verifast-26.01/examples/gcl.c:1784-1801 | an interpreter that stops by itself has printed exactly what the programs mean and stops with their error; one that is cut short has printed the beginning |
| `Sessions.TextIsRun` | verifast-26.01/examples/gcl.c:1784-1801 | a text made of programs that come to an end is run to its end, where the parser complains |
| `Sessions.SessionEnds` | verifast-26.01/examples/gcl.c:1784-1801 | if all programs of a session come to an end, some number of turns is enough for every session to stop for another reason |
| `Sessions.AtomIsPrinted` | verifast-26.01/examples/gcl.c:1772 | in the first environment (print_atom (quote x)) prints x and has the value nil, whatever x is |
| `Sessions.NothingElseIsBound` | verifast-26.01/examples/gcl.c:1751-1780 | in the first environment every name but print_atom is without a binding |
| `Sessions.ArgumentIsFirst` | verifast-26.01/examples/gcl.c:1551-1575 | the argument of an application is evaluated before its function: the effects come out in this order |
| `Sessions.ScopeIsLexical` | verifast-26.01/examples/gcl.c:1617-1671 | a function remembers the environment in which it was created, and the innermost binding of a name counts, for all names and values |
| `HeaderExamples.FirstExample` | verifast-26.01/examples/gcl.c:19-20 | the first program of the header prints Hello_world!, from its tokens to its output |
| `HeaderExamples.OneHello` | verifast-26.01/examples/gcl.c:22-24 | one turn of the second program of the header prints Hello and comes back to the same expression in the same environment, with any operands and continuations as they were |
| `HeaderExamples.SecondExample` | verifast-26.01/examples/gcl.c:22-24 | the second program prints Hello any number of times, and then its stacks are empty: tail calls do not pile up |
| `HeaderExamples.SecondDoesNotEnd` | verifast-26.01/examples/gcl.c:22-24 | the evaluation of the second program does not end |
| `Agreement.SessionsAgree` | verifast-26.01/examples/rcl.c:1070-1098 | two sessions on the same input that stop by themselves print the same and stop in the same way |
| `Agreement.RunCollected` | verifast-26.01/examples/gcl.c:1751-1802 | the interpreter of gcl.c from its start to the end of a session, with the given limit: it prints what the programs mean, or the beginning of it; it reports a full heap only if a full heap is reachable, and never if the limit is more than 14 objects, one for each token, and 3 for each program and 8 for each of its turns |
| `Agreement.RunCounted` | verifast-26.01/examples/rcl.c:1043-1098 | the interpreter of rcl.c from its start to the end of a session |
| `Agreement.RunBoth` | verifast-26.01/examples/rcl.c:1043-1098 | both interpreters on the same tokens run the session of these tokens and print the same, for any numbers of turns that suffice; if one is cut short, it has printed the beginning of what the other one prints; a heap that is large enough is never full |
| `Agreement.AllIsPrinted` | verifast-26.01/examples/gcl.c:1784-1801 | if all programs come to an end, some number of turns is enough for a session to stop by itself, with exactly the output that they mean, unless the heap is full |
| `Barrier.StepKeepsInvariant` | verifast-26.01/examples/barrier.c:68-130 | every statement of every thread keeps: k counts the threads inside, and all threads are in the same round or, while the door is open, have just completed it |
| `Barrier.BarrierIsSafe` | verifast-26.01/examples/barrier.c:30-130 | in every state of every run of n threads: k is the number of threads inside, the mutex excludes, no thread has completed a round that another has not entered, completed rounds differ by at most one |
| `Barrier.BarrierMakesProgress` | verifast-26.01/examples/barrier.c:68-130 | if all n threads are in a call, one of them does not spin, and a holder of the mutex always comes closer to releasing it |
| `Barrier.AllCanReturn` | verifast-26.01/examples/barrier.c:68-130 | from every state of every run of n threads some continuation of the run brings all threads out of their calls, with the same number of calls completed |
| `Barrier.OneMoreRound` | verifast-26.01/examples/barrier.c:68-130 | every run can go on so that all threads have come through the barrier at least once more, all of them equally often, and are outside |
| `Barrier.ComesCloser` | verifast-26.01/examples/barrier.c:68-130 | the step of the holder of the mutex, or of the right thread if there is none, brings all threads closer to being out |
| `BarrierClient.Partner` | verifast-26.01/examples/barrier.c:203-689 | between two calls of the barrier the other thread is between the same two calls or in one of them |
| `BarrierClient.StepKeepsInvariant` | verifast-26.01/examples/barrier.c:203-689 | every step of either thread keeps what it has read and written in line with the recurrence |
| `BarrierClient.OutcomeIsDetermined` | verifast-26.01/examples/barrier.c:203-689 | under every interleaving the final x1, x2, y1, y2 are those of the recurrence, i is 0, and both threads made the same number of barrier calls |
| `BarrierClient.CountersAgree` | verifast-26.01/examples/barrier.c:513-634 | whenever thread 2 may read i, it equals N |
| `BarrierClient.NoRace` | verifast-26.01/examples/barrier.c:203-689 | if both threads are about to access the same field, neither writes it |
| `BarrierClient.NeverStuck` | verifast-26.01/examples/barrier.c:203-689 | until both threads have finished, one of them can go on without spinning |
| `BarrierClient.BothCanFinish` | verifast-26.01/examples/barrier.c:203-689 | from every state of every run some continuation brings both threads to their end, with the values of the recurrence |
| `BarrierClient.LastOneGoes` | verifast-26.01/examples/barrier.c:203-689 | when one thread has finished, the barrier lets the other one out of its last call |
| `BarrierClient.FirstTurn` | verifast-26.01/examples/barrier.c:203-689 | the first sums of the two threads, written out for any initial x1 and x2 |
| `BarrierClient.ZeroStaysZero` | verifast-26.01/examples/barrier.c:691-718 | from the zeros of calloc all values stay zero, so the C arithmetic cannot overflow |
| `Walks.Bound` | generated/dijkstra.js:74-106 | a walk to a black node weighs at least its distance, any other walk at least the distance of some node in the queue |
| `Walks.NearestIsFinal` | generated/dijkstra.js:74-106 | when a nearest node is taken from the queue, its distance is the least weight of a walk |
| `Walks.BlackIsFinal` | generated/dijkstra.js:74-106 | distances of black nodes are least weights at every turn |
| `Walks.EmptyIsUnreachable` | generated/dijkstra.js:74-106 | when the queue is empty, every node that can be reached is black |
| `Walks.WalkFollowsPred` | generated/dijkstra.js:74-106 | following pred leads back along a walk of weight dist |
| `Walks.TakeNearest` | generated/dijkstra.js:74-106 | taking a nearest node keeps the invariant |
| `Walks.RelaxEdge` | generated/dijkstra.js:88-103 | relaxing an edge keeps the invariant, and the distance of a black node is never lowered |
| `Walks.Fits` | generated/dijkstra.js:192-198 | different nodes fit into an array with a place for each node |
| `Dijkstra.Program.Contains` | generated/dijkstra.js:216-223 | whether the node is among the elements |
| `Dijkstra.Program.Add` | generated/dijkstra.js:192-198 | throws exactly if the element is there, otherwise appends it |
| `Dijkstra.Program.Delete` | generated/dijkstra.js:201-213 | throws exactly if the element is missing, otherwise closes the gap |
| `Dijkstra.Program.GetElementWithMinDist` | generated/dijkstra.js:108-127 | throws exactly if there are no elements, otherwise returns one of least distance; the second throw is never reached |
| `Dijkstra.Program.Relax` | generated/dijkstra.js:90-103 | the array updates for one edge, with no throw |
| `Dijkstra.Program.Lower` | generated/dijkstra.js:91-96 | distance and predecessor change exactly if the way is shorter |
| `Dijkstra.Program.Discover` | generated/dijkstra.js:97-100 | a white node becomes grey and is appended, with no throw |
| `Dijkstra.Program.TakeOne` | generated/dijkstra.js:77-81 | the first statements of the loop, with no throw |
| `Dijkstra.Program.Dijkstra` | generated/dijkstra.js:74-105 | the reported length is the least weight of a walk, pred leads back along such a walk, nothing is reported exactly if there is no walk, nothing is thrown, and the loop ends |
| `Bfs.LayeredAfterEdge` | generated/bfs_print.js:63-75 | the queue stays in the order of distances, which differ by at most one |
| `Bfs.TakeFirst` | generated/bfs_print.js:49-58 | the distance of the first node of the queue is exact |
| `Bfs.Program.Enqueue` | generated/bfs_print.js:88-91 | the shifting array refines a queue: in at the end |
| `Bfs.Program.Dequeue` | generated/bfs_print.js:94-104 | out at the front, throws exactly if the queue is empty |
| `Bfs.Program.RegisterNeighbors` | generated/bfs_print.js:63-75 | the recursion appends exactly the white neighbours to the queue, in the order of the list and once each, marks them grey, and changes no other mark |
| `Bfs.NewNeighborsAreWhite` | generated/bfs_print.js:63-75 | the nodes that are appended are exactly the white ones in the list, without duplicates |
| `Bfs.Program.VisitNext` | generated/bfs_print.js:49-58 | one turn of the loop visits a node that was not visited |
| `Bfs.Program.Bfs` | generated/bfs_print.js:45-60 | every node that can be reached is printed exactly once, no other is, the nodes are printed in the order of their distances, and nothing is thrown |
| `ChatRoom.StepKeepsInvariant` | verifast-26.01/examples/chat.c:134-318 | every step of every session, down to single writes to single members, keeps the invariant |
| `ChatRoom.DeliverStep` | verifast-26.01/examples/chat.c:79-100 | a message being sent comes to one more member |
| `ChatRoom.LeaveStep` | verifast-26.01/examples/chat.c:206-232 | a leaver has heard everything up to its own leave message |
| `ChatRoom.MembersHearEverything` | verifast-26.01/examples/chat.c:50-237 | in every state of every interleaving no two members share a nick, and a member has been sent exactly the messages since its own join message |
| `ChatRoom.LeaversHeardTheirPart` | verifast-26.01/examples/chat.c:134-237 | a session that was a member and no longer is has been sent exactly the messages strictly between its join and its leave message |
| `LockOrder.TopIsEnough` | verifast-26.01/bin/threading.h:128-133 | comparing with the lock acquired last is the same as comparing with all locks held |
| `LockOrder.StepKeepsInvariant` | verifast-26.01/bin/threading.h:160-166 | acquiring below the top and releasing in any order keep every lockset a descending chain |
| `LockOrder.LocksetsAreOrdered` | verifast-26.01/bin/threading.h:160-166 | in every state of every run each lockset is a chain, and no lock has two holders |
| `LockOrder.NoDeadlock` | verifast-26.01/bin/threading.h:89-133 | in no state of any run do some threads wait for each other |
| `Philosophers.PhilosophersObey` | verifast-26.01/examples/philosophers.c:31-48 | the loop of a philosopher obeys the rules, including the release that is not nested |
| `Philosophers.SomeoneCanGoOn` | verifast-26.01/examples/philosophers.c:31-48 | in every state of every dinner of any number of philosophers with ordered forks some philosopher can go on and no group waits in a circle; that going on means eating is EachCanEat |
| `Philosophers.ForksAreNotShared` | verifast-26.01/examples/philosophers.c:31-48 | two philosophers who eat have four different forks |
| `Philosophers.EachCanEat` | verifast-26.01/examples/philosophers.c:31-48 | from every state of every dinner, and for every philosopher, some continuation ends with this philosopher eating |
| `Philosophers.AllCanFinish` | verifast-26.01/examples/philosophers.c:31-48 | from every state of every dinner some continuation brings all philosophers back to the beginning of their loops |
| `Philosophers.SomeBusyOneCanGoOn` | verifast-26.01/examples/philosophers.c:31-48 | as long as some philosopher is in the middle of its loop, one of those can go on |
| `Philosophers.TurnOfLoop` | verifast-26.01/examples/philosophers.c:41-46 | a turn of the loop acquires fork2 and then fork1, and releases fork2 and then fork1 |
| `Philosophers.MainIsDinner` | verifast-26.01/examples/philosophers.c:53-75 | the three philosophers of the program, on forks each above the earlier ones, are such a dinner |
| `Spinlock.WordShowsOwner` | verifast-26.01/examples/concurrent_cell2.c:143-157 | the lock word is 0 or 1, and 1 exactly when the history has an owner |
| `Spinlock.OwnerKeepsLock` | verifast-26.01/examples/concurrent_cell2.c:159-185 | what other threads add to the history never changes the owner |
| `Spinlock.MutualExclusion` | verifast-26.01/examples/concurrent_cell2.c:116-205 | in every state of every run of acquire and release at most one thread is between them, and the word shows it; that the lock can be taken and released is CanAcquire and AllCanFinish |
| `Spinlock.CanTake` | verifast-26.01/examples/concurrent_cell2.c:116-157 | while the word is 0, any thread that calls acquire, or is trying to, can get the lock, which sets the word to 1; the other threads stay where they are |
| `Spinlock.CanRelease` | verifast-26.01/examples/concurrent_cell2.c:188-205 | the holder can release the lock, which sets the word back to 0 |
| `Spinlock.CanAcquire` | verifast-26.01/examples/concurrent_cell2.c:116-205 | from every state of every run, and for every thread, some continuation ends with this thread inside |
| `Spinlock.AllCanFinish` | verifast-26.01/examples/concurrent_cell2.c:116-205 | from every state of every run some continuation brings all threads outside, with the word 0 |
| `CompositeTree.AddLinked` | verifast-26.01/examples/composite5.c:213-243 | linking a new child leaves the counts of exactly its ancestors one too small |
| `CompositeTree.ParentIsNext` | verifast-26.01/examples/composite5.c:245-262 | the parent pointer leads to the next ancestor |
| `CompositeTree.CountCorrected` | verifast-26.01/examples/composite5.c:159-211 | correcting one count leaves the other late ones late |
| `CompositeTree.Composite.AddToCount` | verifast-26.01/examples/composite5.c:159-211 | the walk up the parent pointers ends, and then every count is the size of its subtree |
| `CompositeTree.Composite.TreeAdd` | verifast-26.01/examples/composite5.c:213-243 | the tree gets a first child at the node, all other shape stays, all counts are sizes |
| `TreeContext.SplitAndCombine` | verifast-26.01/examples/composite4.c:312-399 | splitting a tree at a path and combining context and subtree gives the tree back, with the node of the path in focus |
| `TreeContext.CombineAndSplit` | verifast-26.01/examples/composite4.c:312-399 | combining and splitting at the path that the context describes gives back context and subtree |
| `TreeContext.GoToRoot` | verifast-26.01/examples/composite4.c:337-358 | the nodes in memory form the tree seen from any node exactly if they form it seen from the root |
| `TreeContext.ChangeFocus` | verifast-26.01/examples/composite4.c:401-447 | the focus can be moved to the node at any path of the whole tree |
| `TreeContext.Forest.FixupAncestors` | verifast-26.01/examples/composite4.c:133-163 | the recursion upwards corrects exactly the counts of the ancestors and ends; it fails exactly if the count of the whole tree does not fit into an int |
| `TreeContext.Forest.AddLeft` | verifast-26.01/examples/composite4.c:165-199 | a new left child with all counts right and all other shape unchanged, or failure exactly if the tree becomes too large |
| `TreeContext.Forest.AddRight` | verifast-26.01/examples/composite4.c:201-233 | likewise for a right child |
| `TreeContext.Forest.GetParent` | verifast-26.01/examples/composite4.c:235-266 | the parent, from which it is the same tree |
| `TreeContext.Forest.SubtreeDispose` | verifast-26.01/examples/composite4.c:268-284 | exactly the nodes of the subtree are freed, each once |
| `TreeContext.Forest.TreeDispose` | verifast-26.01/examples/composite4.c:286-293 | nothing is left |
| `TreeContext.Forest.Example` | verifast-26.01/examples/composite4.c:451-467 | the program frees every node that it has created, and its assertion holds |
| `RuntimeHeap.UpdatedLookup` | runtime/c/pseudo2_heap_runtime.c:44-61 | a set is seen by the next get of the field and of no other; ids, order and length stay |
| `RuntimeHeap.LastSetWins` | runtime/c/pseudo2_heap_runtime.c:44-61 | after any sequence of sets a get returns what was set last for the field, or what was there; ids, order and length stay |
| `RuntimeHeap.OneChanged` | runtime/c/pseudo2_heap_runtime.c:128-146 | writing to the blocks of one value leaves what all others stand for |
| `RuntimeHeap.NothingLeft` | runtime/c/pseudo2_heap_runtime.c:272-336 | when no value is left, no block is: every block has been freed, and it can be freed only once |
| `RuntimeHeap.Runtime.ArrayCreate` | runtime/c/pseudo2_heap_runtime.c:105-126 | a new array of null pointers on fresh blocks |
| `RuntimeHeap.Runtime.ArrayGet` | runtime/c/pseudo2_heap_runtime.c:128-138 | the item at the index |
| `RuntimeHeap.Runtime.ArraySet` | runtime/c/pseudo2_heap_runtime.c:140-149 | one item is replaced, all other values stay |
| `RuntimeHeap.Runtime.StructDefine` | runtime/c/pseudo2_heap_runtime.c:187-198 | one more field, in the order of definition |
| `RuntimeHeap.Runtime.StructValue` | runtime/c/pseudo2_heap_runtime.c:200-212 | a builder whose fields are all defined becomes a struct with these fields |
| `RuntimeHeap.Runtime.FieldsGet` | runtime/c/pseudo2_heap_runtime.c:214-230 | the recursion over two parallel arrays finds the first field with the id |
| `RuntimeHeap.Runtime.FieldsSet` | runtime/c/pseudo2_heap_runtime.c:232-246 | the recursion over two parallel arrays changes the first field with the id and nothing else |
| `RuntimeHeap.Runtime.StructGet` | runtime/c/pseudo2_heap_runtime.c:248-258 | the value of the first field with the id |
| `RuntimeHeap.Runtime.StructSet` | runtime/c/pseudo2_heap_runtime.c:260-270 | the struct refines the updated association list, all other values stay |
| `RuntimeHeap.Runtime.ArrayDispose` | runtime/c/pseudo2_heap_runtime.c:272-287 | the three blocks of an array are freed, all other values stay |
| `RuntimeHeap.Runtime.StructDispose` | runtime/c/pseudo2_heap_runtime.c:312-336 | the four blocks of a struct are freed, all other values stay |
| `RuntimeHeap.Runtime.StructReplaceOwnedArray` | runtime/c/pseudo2_heap_runtime.c:338-356 | the field gets the replacement and the array that it had is freed |
| `RuntimeHeap.Runtime.ArrayReplaceOwnedArray` | runtime/c/pseudo2_heap_runtime.c:358-375 | the item is replaced and the array that was there is freed |
| `RuntimeHeap.Runtime.Example` | runtime/c/pseudo2_heap_runtime.c:377-438 | the assertions of main hold, and no block is left at its end |
| `InsertionSort.SortIsSorted` | verifast-26.01/examples/insertion_sort.c:137-266 | the result is in nondecreasing order and has the same nodes |
| `InsertionSort.TiesAreReversed` | verifast-26.01/examples/insertion_sort.c:159-218 | the sort is not stable: equal keys come out in reverse order |
| `InsertionSort.MoveIsLinked` | verifast-26.01/examples/insertion_sort.c:228-235 | the three assignments through pointers move one node and leave all others in place |
| `InsertionSort.List.FindPlace` | verifast-26.01/examples/insertion_sort.c:154-218 | the pointer to the pointer ends at the first node that is not smaller |
| `InsertionSort.List.InsertionSortCore` | verifast-26.01/examples/insertion_sort.c:137-266 | the list is relinked into nondecreasing order with the same nodes, in the order of the insertion sort; values and other nodes are unchanged, and both loops end |
| `Collector.Heap.CreateNil` | verifast-26.01/examples/gcl.c:852-860 | nil stands for the empty list |
| `Collector.Heap.CreateAtomBeside` | verifast-26.01/examples/gcl.c:1472-1484 | an atom is created while the value to be bound survives, because it is registered |
| `Collector.Heap.LinkObject` | verifast-26.01/examples/gcl.c:720-735 | the new object becomes the first of the list, all others and their values stay |
| `Collector.Heap.SetBody` | verifast-26.01/examples/gcl.c:1133-1141 | assigning to a cons that nothing refers to changes the value of no other object |
| `Reader.FillHead` | verifast-26.01/examples/gcl.c:1132-1138 | the expression becomes the head of the innermost open pair |
| `Reader.FillTail` | verifast-26.01/examples/gcl.c:1139-1148 | the innermost open pair is complete and becomes the expression |
| `Reader.NewAtom` | verifast-26.01/examples/gcl.c:1095-1103 | an atom is allocated, with a possible collection, without loss of an open pair |
| `Reader.OpenPair` | verifast-26.01/examples/gcl.c:1159-1164 | a pair is opened, with a possible collection, without loss of an open pair |
| `Reader.ReadSymbol` | verifast-26.01/examples/gcl.c:1095-1157 | the branch for a symbol does what recursive descent does with it |
| `Interpreter.Interp.constructor` | verifast-26.01/examples/gcl.c:1695-1749 | the interpreter starts with empty stacks, which are roots |
| `Interpreter.Interp.DestructCons` | verifast-26.01/examples/gcl.c:979-1003 | the parts of a pair, or an error if it is none |
| `Interpreter.Interp.AtomEquals` | verifast-26.01/examples/gcl.c:1400-1436 | equality of characters, or an error if the second object is not an atom |
| `Interpreter.Interp.PopApplyFunction` | verifast-26.01/examples/gcl.c:1392-1398 | the function on the operand stack is applied |
| `Interpreter.Interp.MapConsString` | verifast-26.01/examples/gcl.c:1472-1484 | a name is bound in front of the list |
| `Interpreter.Interp.MapConsFunction` | verifast-26.01/examples/gcl.c:1486-1493 | a name is bound to a built-in function |
| `Interpreter.Interp.Turn` | verifast-26.01/examples/gcl.c:1793-1798 | one turn of the inner loop is one turn of the machine |
| `Interpreter.Interp.EvaluateProgram` | verifast-26.01/examples/gcl.c:1786-1800 | a parsed expression is evaluated as the semantics says, and the stacks are empty again |
| `CountedHeap.Heap.constructor` | verifast-26.01/examples/rcl.c:188-190 | nil starts with the one reference that is never released |
| `CountedHeap.Heap.Dispose` | verifast-26.01/examples/rcl.c:171-173 | disposal gives up what the object kept, frees it, and touches no other unpublished object |
| `CountedHeap.Heap.CreateNil` | verifast-26.01/examples/rcl.c:210-218 | one more reference to nil |
| `CountedHeap.Heap.CreateAtom` | verifast-26.01/examples/rcl.c:346-373 | one reference to a new atom |
| `CountedHeap.Heap.Construct` | verifast-26.01/examples/rcl.c:276-287 | an object that nothing refers to and that is not on the list of objects |
| `CountedHeap.Heap.TakeParts` | verifast-26.01/examples/rcl.c:312-322 | the parts gain their references before the pair may be disposed |
| `CountedReader.FillHead` | verifast-26.01/examples/rcl.c:419-423 | the expression becomes the head of the innermost open pair, which takes over the reference |
| `CountedReader.FillTail` | verifast-26.01/examples/rcl.c:425-434 | the innermost open pair is complete, goes on the list of objects and becomes the expression |
| `CountedReader.Complete` | verifast-26.01/examples/rcl.c:414-435 | a finished expression completes heads and tails outwards as recursive descent would |
| `CountedReader.OpenPair` | verifast-26.01/examples/rcl.c:437-438 | a pair is opened off the list of objects |
| `CountedInterpreter.Interp.Push` | verifast-26.01/examples/rcl.c:493-500 | the reference passes to the operand stack |
| `CountedInterpreter.Interp.Pop` | verifast-26.01/examples/rcl.c:502-509 | the reference passes from the operand stack, or the underflow error |
| `CountedInterpreter.Interp.PushCont` | verifast-26.01/examples/rcl.c:511-518 | the reference passes to the continuation stack |
| `CountedInterpreter.Interp.PopCont` | verifast-26.01/examples/rcl.c:520-528 | the reference passes from the continuation stack |
| `CountedInterpreter.Interp.EvalAtom` | verifast-26.01/examples/rcl.c:813-830 | an atom is looked up, and all four references are given up |
| `CountedInterpreter.Interp.EvalPair` | verifast-26.01/examples/rcl.c:831-883 | the use of a form or an application, balanced |
| `CountedInterpreter.Interp.MapConsFunction` | verifast-26.01/examples/rcl.c:782-797 | a name is bound to a built-in function |
| `CountedInterpreter.Interp.Initialize` | verifast-26.01/examples/rcl.c:1057-1066 | the forms and the environment are the ones that the semantics starts from, in which exactly print_atom is bound (Sessions.AtomIsPrinted, Sessions.NothingElseIsBound), and they are the only references held |
| `CountedInterpreter.Interp.Turn` | verifast-26.01/examples/rcl.c:1084-1092 | one turn of the inner loop is one turn of the machine |
| `CountedInterpreter.Interp.EvaluateProgram` | verifast-26.01/examples/rcl.c:1076-1097 | a parsed expression is evaluated as the semantics says, and the references held are the same again |
| `Barrier.EnterStep` | verifast-26.01/examples/barrier.c:100 | incrementing k never makes it exceed n |
| `Barrier.LeaveStep` | verifast-26.01/examples/barrier.c:103-121 | decrementing k completes the round for the thread |
| `Barrier.DoorStep` | verifast-26.01/examples/barrier.c:101-126 | outgoing changes only when all are inside or none is |
| `Barrier.SomeThreadCanPass` | verifast-26.01/examples/barrier.c:85-119 | the two loops never make all threads wait |
| `BarrierClient.Agreement` | verifast-26.01/examples/barrier.c:263-329 | when a thread reads a value, the value is complete and not yet overwritten |
| `ChatRoom.JoinStep` | verifast-26.01/examples/chat.c:298-307 | only a nick that no member has is announced; which nicks are refused is ChatProgress.RefusedIsInUse, and what joining does is ChatProgress.NickIsAccepted |
| `ChatRoom.AddStep` | verifast-26.01/examples/chat.c:154-174 | the new member has heard everything since its join message |
| `ChatRoom.SayStep` | verifast-26.01/examples/chat.c:186-200 | a message is announced to the members one after the other |
| `ChatProgress.RefusedIsInUse` | verifast-26.01/examples/chat.c:50-77 | in every state of every run a session that is about to refuse a nick has found it among the members |
| `ChatProgress.NickIsAccepted` | verifast-26.01/examples/chat.c:134-177 | when the lock is free and no member has the nick, the client can join: it is added in front of the list, all other members are sent the nick with has joined the room, and nobody else is sent anything |
| `ChatProgress.NickIsRefused` | verifast-26.01/examples/chat.c:298-307 | when a member has the nick, the client is sent the error and asked again, and nothing else changes |
| `ChatProgress.NickIsAnswered` | verifast-26.01/examples/chat.c:298-307 | from every state of every run in which a nick has been entered some continuation answers it: it is accepted exactly if no member has it when the lock becomes free |
| `ChatProgress.NewcomerIsAnswered` | verifast-26.01/examples/chat.c:240-318 | from every state of every run a new client can connect, enter any nick and be answered: it becomes a member exactly if no member has the nick when the lock becomes free |
| `ChatProgress.LineIsBroadcast` | verifast-26.01/examples/chat.c:183-204 | a line that the client of a member sends can be written to all members, as the nick of the member, says and that line, and to nobody else |
| `ChatProgress.MemberLeaves` | verifast-26.01/examples/chat.c:206-237 | at the end of its input a member can leave: exactly it is taken off the list, and exactly the remaining members are sent the nick with left the room |
| `ChatProgress.Broadcast` | verifast-26.01/examples/chat.c:79-100 | sending a message writes it exactly once to each member that is left to be told |
| `ChatProgress.ClientIsGreeted` | verifast-26.01/examples/chat.c:259-292 | a client is sent the greeting, the nicks of the members in the order of the list, and the question for its nick |
| `ChatProgress.HolderReleases` | verifast-26.01/examples/chat.c:50-318 | the holder of the lock can always go on until it has released it, and the other sessions stay where they are |
| `Walks.WithoutAt` | generated/dijkstra.js:205-212 | closing the gap at the place of an element takes out that element |
| `InsertionSort.OneMoreIsSorted` | verifast-26.01/examples/insertion_sort.c:228-260 | after the outer loop body one more node is in place |
| `InsertionSort.List.MoveNode` | verifast-26.01/examples/insertion_sort.c:228-235 | the code that moves a node |

## Left out

- Collector.Heap.RegisterObject: the limit of 10000 objects is a parameter, because only the size at which a session is
  stopped depends on its value; `malloc` does not fail.
- CountedHeap.Heap.AddRef: does not model 32-bit wrap-around of `refCount`, because the source has no guard for it either;
  counts are unbounded integers.
- Collector.Heap.Mark: does not restore `tail_is_next`, as the source does not; it is false for every cons that has been
  marked, and nothing else reads it.
- Barrier.BarrierMakesProgress: states that some thread does not spin and that the mutex is always released, and
  `AllCanReturn` that all calls can always be brought to an end, not that every call returns under every scheduler:
  a scheduler that lets one thread spin for ever is possible.
- BarrierClient.OutcomeIsDetermined: holds for any initial values over unbounded integers; for the zeros that the program
  starts from, `ZeroStaysZero` excludes overflow.
- Interpreter.Interp.RunPrograms: bounds the programs that are read and the turns of each by parameters, because the two
  loops of `main` need not end; every statement holds for all bounds. The same holds for
  CountedInterpreter.Interp.RunPrograms.
- ChatRoom.StepKeepsInvariant: the two writes that make up a line, and the lines of the greeting, are one step each;
  sockets and the server loop only appear as steps that connect a client and as input lines.
- Dijkstra.Program.Dijkstra: weights are integers, so rounding of JavaScript numbers is not modelled; the graph is one whose
  edges lead to nodes and have no negative weights; the array `X` has a place for each node, and no more are needed.
- The tokenizer and string buffers: input is a sequence of tokens, output a sequence of printed atoms.
- Struct layout, casts, and the implementation of mutexes and locks, which are steps that wait until nobody holds them.
- The code that builds the example graphs of `dijkstra.js` and `bfs_print.js`, and their debugging output.
- `schorr_waite.c`: the marker of `gcl.c` is the same algorithm for more kinds of objects.
- TreeContext.Forest.FixupAncestors: `abort` on a count that does not fit into an `int` is a result that says so.
- RuntimeHeap.Runtime.FieldsGet: the pointers into the two arrays are an index; the sizes that `malloc` is asked for do
  not overflow, as the contracts of the source demand. The same holds for RuntimeHeap.Runtime.FieldsSet.
- `Composite.c`: binary trees with the invariant of `composite4.c` and `composite5.c`.
- `inverse.c`, `priorityqueue-forall_nth.c`, `mergesort_and_binarysearch.c`, `doubly_linked_list.c` and the smaller
  examples: textbook algorithms.
- `only_allow_incrementing` in `concurrent_cell2.c`; and the lemma that line 168 of that file calls is not defined there,
  in a case that `is_lock` rules out.
- The generators of the Pseudo2 language are not part of this model.
