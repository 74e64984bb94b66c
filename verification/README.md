# Homeworldz region server: scripts, formats and land

A Dafny model of the parts of the region server where something has to come out right however it is
used, with proofs of what they promise.

- **Falcon**, the script language: a lexer, a parser, a type-checking one-pass compiler with
  back-patched jumps, a stack machine that runs under an instruction budget and can be written to
  bytes at any instruction, and a runtime that shares one budget between many scripts with bounded
  event queues. The compiler is proved correct against an evaluator of the syntax tree; the bytecode
  is proved safe; interruption is proved invisible; and the results meet in
  `SchedulerHistory.EntryMeansItsSource` and `SchedulerHistory.EventMeansItsSource`, which go from
  the source text a script is rezzed from, through any interleaving of ticks, to the globals and host
  calls of evaluating its `state_entry` handler or the handler of a queued event, and in
  `SchedulerSoundness.DeclaredScriptsAreNeverTrapped`: a script that declares its string locals
  before it reads them is never trapped in any run, and every call it makes is heard.
- **Formats** whose writer and reader were written apart: binary LLSD, render materials, texture
  entries (two writers, two readers), the mesh asset with its quantized coordinates and compressed
  blocks, JSON strings (one encoder, two decoders), session envelopes, base64 (two encoders, one
  decoder). Each reader is proved to undo its writers, with the exact condition where it does not.
- **State with an invariant over every run**: parcels as a partition of the land, the physics mirror
  as a function of the scene, permission masks.
- **Renumbering** in the mesh converter: index buffers and joint tables that keep what every index
  means.

Code that computes is modelled by functions. Code that works in place is modelled by classes and
loops (the modules ending in `Object`, `Vm.VM`, the byte reader and writer of `Snapshot`, the mesh
reader and writer, `Permissions`, `MeshConvert`, `Base64`), each method proved to compute the
function its laws are about.

## How the modules fit together

| area | specification | laws | loops and objects |
|---|---|---|---|
| scanning and parsing | Lexer, Parser, Printer, Ast | SourceText, LexerPlaces, ParseInverse, ParseRange, ExpressionGrammar | Lexer, ParserObject |
| compiling | Compiler, Evaluator, Typing, Bytecode | Simulation, Correctness, Safety, TypeSoundness, OperatorMeaning, DecimalText | CompilerObject |
| running | Vm, Snapshot | Interruption, Snapshot | Vm, Snapshot |
| scheduling | Scheduler | SchedulerSafety, SchedulerHistory, SchedulerSoundness, SchedulerProgress | SchedulerObject |
| LLSD and materials | Llsd, RenderMaterial | LlsdInverse, RenderMaterial | LlsdObject, RenderMaterial |
| texture entries | TextureEntry, TextureEntryUsers | TextureEntryLaws, TextureEntryStreams, TextureEntryUsers | TextureEntryObject, TextureEntryUsers |
| mesh assets | MeshQuantize, MeshAsset | MeshQuantize, MeshAssetLaws, MeshAssetInverse, MeshWire | MeshAssetReader, MeshAssetObject, MeshAssetWriter, MeshAssetSerializer |
| JSON | JsonText, SessionEnvelope | JsonText, JsonStandard, SessionEnvelope, EnvelopeText | JsonObject |
| parcels | Parcels, ParcelBits | Parcels, ParcelBits, ParcelMetres | ParcelObject |
| physics mirror | Mirror | Mirror, MirrorMeaning | MirrorObject |
| the rest | Base64, Permissions, MeshConvert | the same, and Base64Standard, PermissionMeaning | the same |

## Where the code differs from its own description

- `region/include/homeworldz/llsd_binary.h` says that a document parsed and serialized again comes
  out byte for byte. A date comes back as a real and is written with the real's tag, so it does
  exactly when no date is in the document (`LlsdInverse.ParseThenWrite`, `LlsdInverse.DateBecomesReal`).
- `region/src/texture_entry.cpp:45-47` says that everything after a short field reads as absent. The
  loop continues instead of stopping, so a narrower field may still take the bytes that were too few
  (`TextureEntryLaws.ShortStreamSkipsFields` is such an input). The comment holds exactly when no byte
  is left over at the first short field, or only the last field is short
  (`TextureEntryStreams.AbsentFromTheFirstShort`), which is so of everything the writer writes
  (`TextureEntryStreams.EncodedIsSpelled`).
- `region/src/texture_entry.cpp:74-76` says that an entry that came in short and was not edited goes
  out the same length. It goes out in the same bytes exactly when they were spelled the writer's way
  (`TextureEntryStreams.ParseThenEncode`). The entry built for an upload is not: it lacks its last
  terminator and goes out one byte longer (`TextureEntryStreams.UploadGrows`).
- `region/include/homeworldz/mesh_model_upload.h:101-104` says that faces with an image draw their
  uploaded texture. The entry is built for eight faces (line 38, where the comment says that a texture
  entry can name no more; it can name thirty-two), and every later face keeps the fallback and white.
  A viewer's upload of more than eight faces is refused, but `region/src/main.cpp:3795-3801` hands on a
  face for each material of a converted GLB, and a primitive without material makes a ninth.
  `TextureEntryUsers.NinthFaceIsLost` is such an input, and `TextureEntryUsers.EveryFaceReadsItsOwn`
  has the exact condition.
- `region/src/mesh_convert.cpp:590-592` accepts 255 joints, with indices 0 to 254, and its message
  says more than 254 are refused. `MeshConvert.CompactJoints` has the exact condition and
  `MeshConvert.JointLimit` the input at the limit. The marker 255 is never used as an index either way.
- `region/include/homeworldz/slmesh.h` promises that serializing and parsing reproduces a mesh to
  quantization precision. The writer has no size limit and the reader's buffer has one, so a mesh can
  be written that cannot be read (`MeshAssetInverse.TooLargeToRead`); `MeshAssetInverse.RoundTrip`
  gives the exact condition.
- `script/src/vm.cpp:315-354`: the text of a fault is not part of a snapshot, so a machine that
  faulted restores as one that merely finished (`Interruption.ErrorTextDoesNotTravel`).
- `script/src/vm.cpp:149` fills every slot that is not a parameter with integer 0, so a string local
  whose declaration was skipped holds an integer. It faults where a string is needed
  (`TypeSoundness.SkippedDeclarationFaults`), and passed to a host function it is handed on as an
  integer, which `region/src/falcon_runtime.cpp:57-63` drops without a word
  (`TypeSoundness.SkippedDeclarationIsSaid`, `SchedulerSoundness.HeardExactlyWhenTyped`).
- `script/include/homeworldz/script/parser.h:12-13` promises an error's line. The scanner
  (`script/src/lexer.cpp:122-133`) takes a newline after a backslash into a string's text without
  counting it, so every line number after such a string is one too small
  (`LexerPlaces.EscapedNewlineIsNotCounted`); `LexerPlaces.TokensAreOnTheirLines` has the exact
  condition.
- `region/src/scene.cpp:99-125`: an item without transfer in its base, updated without copy for the
  next owner, leaves a next owner who may do neither (`Permissions.NextOwnerMayBeStuck`);
  `Permissions.ItemUpdateIsSound` has the exact condition.

## Model

| member | source | states |
|---|---|---|
| `Correctness.CompilerCorrect` | script/src/compiler.cpp:52-346 | for every accepted script, handler, well-typed arguments, state of the globals and evaluation depth, the dispatched bytecode ends with the evaluator's globals and host calls, or in its type fault, or is still running where the evaluator is, with its globals and host calls so far |
| `Correctness.HaltsIffEvaluationTerminates` | script/src/vm.cpp:159-173 | the handler stops on the machine, for some budget, if and only if the evaluator terminates |
| `Correctness.CallsAreTheSources` | script/src/vm.cpp:284-305 | after any number of instructions, of a handler that stops or of one that never does, the host calls made are the first of those the evaluator makes, in its order |
| `Correctness.StoppedMeansEvaluated` | script/src/vm.cpp:159-313 | whatever budget it stopped within, a stopped machine holds what the evaluator leaves |
| `Correctness.HandlerRuns` | script/src/compiler.cpp:108-111 | the body's code runs as the body evaluates and the Halt after it ends the handler |
| `Correctness.DispatchMatches` | script/src/vm.cpp:134-157 | a dispatched machine starts out holding the handler's arguments by parameter name and the globals as they were |
| `Correctness.ScriptHandler` | script/src/compiler.cpp:81-112 | each handler of a compiled script has its own code ending in Halt, an entry that points at it, its event's parameter types and slots enough for its locals |
| `Correctness.StoppedStays` | script/src/vm.cpp:162-166 | once stopped, no larger budget changes the state |
| `Simulation.ExprRuns` | script/src/compiler.cpp:247-346 | code of an expression pushes exactly the value the evaluator gives, above an untouched stack, or faults where the evaluator faults |
| `Simulation.ArgsRun` | script/src/compiler.cpp:336-342 | code of a call's arguments leaves all of them on the stack in order |
| `Simulation.CallRuns` | script/src/compiler.cpp:327-346 | a call statement makes one host call with the evaluated arguments |
| `Simulation.StmtRuns` | script/src/compiler.cpp:173-243 | code of a statement, started on an empty stack, ends just after itself on an empty stack with the evaluator's store |
| `Simulation.WhileRuns` | script/src/compiler.cpp:222-229 | a loop's patched jumps iterate exactly as often as its condition is not zero |
| `Simulation.IfRuns` | script/src/compiler.cpp:231-243 | the patched jumps run the branch the condition selects and only that one |
| `Simulation.BlockRuns` | script/src/compiler.cpp:167-171 | a block's code runs its statements in order, each from where the last one ended |
| `Typing.AcceptsExactlyTheWellTyped` | script/src/compiler.cpp:52-363 | the compiler accepts exactly the scripts a separate type system accepts, and rejects the others with that system's first error |
| `Evaluator.TypedAfter` | script/src/compiler.cpp:167-210 | the scope a well-typed statement leaves depends on its declarations alone, those inside its blocks included: names outlive the block that declared them |
| `OperatorMeaning.IntegersMean` | script/src/vm.cpp:216-262 | sums, differences and products are the integers' modulo 2^32, comparisons are one or zero |
| `OperatorMeaning.NamesMean` | script/src/compiler.cpp:147-157 | an assignment is read back where it went, a local before a global, and every other name reads as before |
| `Compiler.ExprExtends` | script/src/compiler.cpp:247-346 | compiling an expression only appends code, constants and host names and leaves scope and slots alone |
| `Compiler.CompileStmt` | script/src/compiler.cpp:173-192 | whatever a statement compiles to, code emitted before it is kept as it was |
| `CompilerObject.ScriptCompiler.EmitOp` | script/src/compiler.cpp:114-117 | one instruction is appended and its index returned |
| `CompilerObject.ScriptCompiler.PatchTarget` | script/src/compiler.cpp:119-121 | only the target of one earlier instruction changes |
| `CompilerObject.ScriptCompiler.AddConstant` | script/src/compiler.cpp:125-135 | an equal constant is reused, the first of them, and otherwise one is added at the end |
| `CompilerObject.ScriptCompiler.AddHost` | script/src/compiler.cpp:137-145 | a host name already known keeps its index, a new one is added at the end |
| `CompilerObject.ScriptCompiler.ResolveName` | script/src/compiler.cpp:147-157 | a local hides a global; an unknown name is an error |
| `CompilerObject.ScriptCompiler.Expression` | script/src/compiler.cpp:247-287 | the object ends in the state, or with the error, of compiling the expression |
| `CompilerObject.ScriptCompiler.BinaryExpression` | script/src/compiler.cpp:289-325 | both operands are compiled, in order, before the operator is chosen by their types |
| `CompilerObject.ScriptCompiler.CallExpression` | script/src/compiler.cpp:327-346 | arguments are counted, compiled and checked one by one before the call is emitted |
| `CompilerObject.ScriptCompiler.Statement` | script/src/compiler.cpp:173-220 | the object ends in the state, or with the error, of compiling the statement |
| `CompilerObject.ScriptCompiler.Declaration` | script/src/compiler.cpp:194-210 | the slot is taken first, the initializer compiled next, the name bound last |
| `CompilerObject.ScriptCompiler.WhileLoop` | script/src/compiler.cpp:222-229 | emitting a placeholder and patching it gives the loop the specification describes |
| `CompilerObject.ScriptCompiler.Conditional` | script/src/compiler.cpp:231-243 | both patches of a conditional, with and without an else branch |
| `CompilerObject.ScriptCompiler.Global` | script/src/compiler.cpp:69-79 | a global gets the next slot and its literal or the default of its type; a second one of the name is an error |
| `CompilerObject.ScriptCompiler.Event` | script/src/compiler.cpp:81-112 | a handler is known, not yet handled, and has its event's parameters, or one of those errors |
| `CompilerObject.ScriptCompiler.Script` | script/src/compiler.cpp:52-60 | the whole compilation, globals first |
| `Safety.ReachableStatesAreSafe` | script/src/vm.cpp:175-313 | in every state reachable from dispatching any handler of any compiled script the instruction pointer is in that handler up to its Halt, the stack has the depth fixed by the pointer, and no underflow, range or missing-host fault has occurred |
| `Safety.HandlerIsSafe` | script/src/compiler.cpp:81-121 | every compiled handler has a static depth at each instruction, zero at its entry and its Halt, its jumps inside it and its slots, constants and hosts in range |
| `Safety.StepStaysInHandler` | script/src/vm.cpp:175-313 | one instruction keeps a machine in its handler at the static depth |
| `Safety.ExprSafe` | script/src/compiler.cpp:245-346 | code of an expression is entered at one depth and left one deeper, or as deep when it yields nothing |
| `Safety.StmtSafe` | script/src/compiler.cpp:173-243 | code of a statement is entered and left with an empty stack |
| `TypeSoundness.NeverFaults` | script/src/vm.cpp:190-274 | a handler whose string locals are declared or assigned before they are read on every path never faults, however long it runs, makes only host calls whose arguments have their function's types, whether or not it ever stops, and leaves every global with its declared type |
| `TypeSoundness.HandlerSound` | script/src/compiler.cpp:194-287 | the evaluator never faults on such a handler, makes typed host calls only and keeps every global's type |
| `TypeSoundness.StmtSound` | script/src/compiler.cpp:194-220 | a statement that reads only what is declared keeps the store well typed and its host calls typed |
| `TypeSoundness.FreshGlobalsTyped` | script/src/compiler.cpp:69-79 | a new machine's globals have their declared types |
| `TypeSoundness.FreshGlobalsMean` | script/src/compiler.cpp:69-79 | a new machine's globals hold their literals, and zero or no text where there is none |
| `TypeSoundness.SkippedDeclarationFaults` | script/src/vm.cpp:149-152 | a script the compiler accepts and the machine faults on, because a string local's declaration was skipped |
| `TypeSoundness.SkippedDeclarationIsSaid` | script/src/vm.cpp:149-152 | another one that finishes, having passed an integer to `llOwnerSay` |
| `Vm.VM.StepOne` | script/src/vm.cpp:175-313 | one instruction changes the machine as its meaning says, or faults leaving what the source leaves |
| `Vm.VM.ExecuteBranch` | script/src/vm.cpp:275-283 | a jump is taken always, or when the popped integer is zero |
| `Vm.VM.ExecuteCast` | script/src/vm.cpp:270-274 | the integer on top becomes its decimal text |
| `DecimalText.TextReadsAsTheInteger` | script/src/vm.cpp:270-274 | the text of any integer, read by a valuation of its own, is that integer; it begins with a sign exactly when the integer is negative, and the rest are digits without a leading zero |
| `DecimalText.TextTellsIntegersApart` | script/src/vm.cpp:270-274 | two integers of one text are one |
| `DecimalText.CastSpellsItsOperand` | script/src/vm.cpp:270-274 | the machine's cast replaces the integer on top by decimal text of its value and leaves the rest of the stack |
| `DecimalText.CastEvaluatesToDecimal` | script/src/compiler.cpp:265-280 | the evaluator's cast likewise |
| `Vm.VM.PopArguments` | script/src/vm.cpp:292-295 | the last arguments on the stack, in the order they were pushed |
| `Vm.VM.CallHostFunction` | script/src/vm.cpp:284-305 | index and argument count are checked before the call, a returned value is pushed, and the call is recorded |
| `Vm.VM.RunSlice` | script/src/vm.cpp:159-173 | the loop runs as the specification runs, up to the budget, a Halt or a fault |
| `Vm.VM.DispatchEvent` | script/src/vm.cpp:134-157 | an event starts its handler on fresh locals, or is refused and changes nothing |
| `Vm.InitialLocals` | script/src/vm.cpp:149-152 | the arguments first, integer zero in every other slot |
| `Vm.FirstMistyped` | script/src/vm.cpp:143-148 | the first argument whose type is not its parameter's, and none before it |
| `Interruption.RunSplit` | script/src/vm.cpp:159-173 | run(a) then run(b) is run(a+b): same state, same host calls, same status, faults included |
| `Interruption.RunCount` | script/src/vm.cpp:161-166 | a run counts what it executes, never more than its budget, exactly the budget when it yields |
| `Interruption.RunKeeps` | script/src/vm.cpp:175-313 | running never resizes the locals or the globals and never takes back a host call |
| `Interruption.CrossingIsInvisible` | script/src/vm.cpp:315-354 | a snapshot and a restore into a new machine after every slice, wherever the slices end, changes neither the host calls nor the final state |
| `Interruption.ErrorTextDoesNotTravel` | script/src/vm.cpp:315-329 | restoring gives back the very state exactly when it held no fault text |
| `Snapshot.RestoreInvertsSnapshot` | script/src/vm.cpp:315-354 | restoring a snapshot reproduces every captured field if and only if the counts and strings are within the limits |
| `Snapshot.RestoredFits` | script/src/vm.cpp:331-354 | no bytes whatever restore a machine outside those limits |
| `Snapshot.SnapshotBegins` | script/src/vm.cpp:315-339 | a snapshot begins with HWZS, version 2 and the bytecode version; bytes that begin otherwise are refused and change nothing |
| `Snapshot.TakeSnapshot` | script/src/vm.cpp:315-329 | the byte writer produces the specified bytes |
| `Snapshot.RestoreSnapshot` | script/src/vm.cpp:331-354 | the byte reader restores, or fails at the same field leaving the same fields changed |
| `Snapshot.ByteWriter.WriteUnsigned` | script/src/vm.cpp:25-38 | numbers are appended least significant byte first |
| `Snapshot.ByteWriter.WriteValues` | script/src/vm.cpp:39-59 | a count, then each value tagged |
| `Snapshot.ByteReader.NextUnsigned` | script/src/vm.cpp:73-91 | numbers are read least significant byte first, or the snapshot is truncated |
| `Snapshot.ByteReader.NextValue` | script/src/vm.cpp:106-124 | a tagged value, with its own errors for an unknown tag and an implausible length |
| `Snapshot.ByteReader.NextBank` | script/src/vm.cpp:92-103 | a count within the limit and that many values |
| `Lexer.Tokenize` | script/src/lexer.cpp:38-184 | the single pass over the text yields the specified tokens with their lines, or the first error with its place |
| `Lexer.SkipComment` | script/src/lexer.cpp:66-83 | a block comment ends at the first closing mark and counts its lines; an open one is an error where it began |
| `Lexer.TakeNumber` | script/src/lexer.cpp:98-113 | digits are read while the value fits 31 bits |
| `Lexer.TakeString` | script/src/lexer.cpp:114-150 | escapes are decoded; a newline or the end leaves it unterminated |
| `SourceText.TokenizeInvertsRender` | script/src/lexer.cpp:38-184 | tokens written out under any layout of blanks and comments that keeps them apart scan back to themselves |
| `LexerPlaces.TokensAreOnTheirLines` | script/src/lexer.cpp:38-184 | every token carries the line it starts on if and only if no string literal holds a newline after a backslash |
| `LexerPlaces.ErrorsArePlaced` | script/src/lexer.cpp:31-34 | a lexical error carries the line and the column of where the scan failed, when no string before it holds such a newline |
| `LexerPlaces.EscapedNewlineIsNotCounted` | script/src/lexer.cpp:117-133 | the source whose error, on the second line, is reported on the first |
| `ParserObject.TokenParser.Expression` | script/src/parser.cpp:212-227 | the climbing loop reads what the specification reads and stops where it stops |
| `ExpressionGrammar.ReadsByLevels` | script/src/parser.cpp:9-227 | on every token list, climbing by the precedence table reads what a grammar of levels reads and rejects what it rejects: an equality of relations of sums of products of unaries, each repeating to the left |
| `ExpressionGrammar.ProductAfterSum` | script/src/parser.cpp:212-227 | a + b * c is a sum whose second term is the product, for any three operands |
| `ExpressionGrammar.SumAfterProduct` | script/src/parser.cpp:212-227 | a * b + c is a sum whose first term is the product |
| `ExpressionGrammar.DifferenceToTheLeft` | script/src/parser.cpp:212-227 | a - b - c takes c from a - b |
| `ParserObject.TokenParser.Unary` | script/src/parser.cpp:229-244 | a cast is told from a group by the keyword and the parenthesis after it |
| `ParserObject.TokenParser.Primary` | script/src/parser.cpp:246-282 | literals, names, calls and groups |
| `ParserObject.TokenParser.Statement` | script/src/parser.cpp:150-210 | the statement forms, an assignment told from an expression by the sign after its name |
| `ParserObject.TokenParser.Global` | script/src/parser.cpp:95-118 | a global takes a literal of its own type only |
| `ParserObject.TokenParser.Event` | script/src/parser.cpp:120-138 | a handler's name, parameters and block |
| `ParserObject.TokenParser.Script` | script/src/parser.cpp:37-54 | globals, the default state and at least one handler, with nothing after it |
| `ParseInverse.ParseInvertsPrint` | script/src/parser.cpp:9-282 | every tree the grammar can build, printed with parentheses only where the precedence table asks, scans and parses back to itself under any layout |
| `ParseRange.ParsableExactlyWhenPrintable` | script/src/parser.cpp:9-282 | those trees are exactly the ones some source text parses to: at least one handler, names that are words and no keywords, numbers not negative, globals with literals of their type |
| `ParseRange.ReformattedSource` | script/src/parser.cpp:9-282 | printing what any source parsed to, under any layout, gives a source that parses to the same |
| `ParseRange.LastLineParses` | script/src/lexer.cpp:60-83 | the newline after the last line may be missing, so that a source may end in a line comment |
| `ParseInverse.ExprReads` | script/src/parser.cpp:212-282 | an expression printed at a level is read back by the loop entered at any lower level: left association, casts and groups |
| `ParseInverse.StmtReads` | script/src/parser.cpp:150-210 | a printed statement is read back and the parser stops just after it |
| `ParseInverse.ScriptReads` | script/src/parser.cpp:37-54 | a printed script's tokens parse to the script |
| `SchedulerSafety.RunStep` | region/src/falcon_runtime.cpp:83-171 | every step of every run from an empty runtime is an operation on scripts none of whose queued events would be refused |
| `Scheduler.CompiledCovers` | script/src/compiler.cpp:98-111 | a compiled handler has a slot for each parameter |
| `Scheduler.DispatchSucceeds` | script/src/vm.cpp:134-157 | an event with its handler's types is never refused |
| `SchedulerSafety.EveryRunIsSafe` | region/src/falcon_runtime.cpp:32-171 | after any sequence of rezzing, switching, erasing, touching and ticking: at most 64 events wait, each dispatchable, every machine is in a compiled handler, and a fault is only a type fault of a script then trapped |
| `SchedulerSafety.TickBudget` | region/src/falcon_runtime.cpp:142-171 | a tick reports exactly the instructions its scripts executed, never more than the total budget |
| `SchedulerSafety.TickIsOneTurn` | region/src/falcon_runtime.cpp:147-169 | a tick gives a script nothing or one turn, with no more than its slice |
| `SchedulerSafety.TurnBudget` | region/src/falcon_runtime.cpp:150-164 | a turn spends at most its grant; a disabled, trapped or idle script spends nothing and does not change |
| `SchedulerSafety.TickTouchesOrder` | region/src/falcon_runtime.cpp:147-169 | scripts not yet visited are untouched by the visits before them |
| `SchedulerSafety.TouchDispatches` | script/src/compiler.cpp:81-107 | a queued touch never throws when it is dispatched, because the compiler enforced the signature |
| `SchedulerSafety.EntriesKeepSignatures` | script/src/compiler.cpp:82-107 | every compiled entry has its event's own parameter types |
| `SchedulerSafety.DispatchKeeps` | script/src/vm.cpp:149-156 | dispatching resets the handler's state only: globals, count and host calls stay |
| `SchedulerHistory.EventsAreConserved` | region/src/falcon_runtime.cpp:41-46 | over any stretch of any run, events waiting at the start followed by those accepted are those dispatched followed by those waiting: none lost, repeated or reordered |
| `SchedulerHistory.SlicesAddUp` | region/src/falcon_runtime.cpp:147-164 | while no event is dispatched, all slices of a script are one uninterrupted run, whatever the others did |
| `SchedulerHistory.ScheduledHandlerMeansItsSource` | region/src/falcon_runtime.cpp:142-171 | a queued event, dispatched and run over any ticks to its end, leaves the globals and host calls of evaluating that handler of the script that was compiled |
| `SchedulerHistory.EventMeansItsSource` | region/src/falcon_runtime.cpp:83-171 | the same from the source text: of a script rezzed from a text that parses, the handler evaluated is the parsed one |
| `SchedulerHistory.EntryMeansItsSource` | region/src/falcon_runtime.cpp:67-100 | the entry event that rezzing an enabled script starts leaves, at its end over any ticks, what evaluating the text's `state_entry` handler on the globals' initial values leaves |
| `SchedulerHistory.RezInstalls` | region/src/falcon_runtime.cpp:83-95 | a rez of a text that parses and compiles puts a new script under its key, in any state of any run |
| `SchedulerHistory.ActionEvolves` | region/src/falcon_runtime.cpp:83-171 | what any one operation can do to a script it spares: queue one event, switch it, or run it, from the queue's head only when its machine is idle |
| `SchedulerHistory.SwitchMeans` | region/src/falcon_runtime.cpp:102-108 | a script is on or off as the last call that names it said, no other call changes that, and such a call changes nothing else |
| `SchedulerHistory.KeysTellScriptsApart` | region/src/falcon_runtime.cpp:102-112 | a key names one script of one object where object ids hold no bar |
| `SchedulerProgress.TouchMeans` | region/src/falcon_runtime.cpp:130-140 | a touch adds one event with its count to exactly the scripts of the object that are on, not trapped, handle touches and have fewer than 64 events waiting |
| `SchedulerProgress.RezMeans` | region/src/falcon_runtime.cpp:83-95 | a rez of a text that compiles puts one new script under its key and changes no other |
| `SchedulerProgress.RefusedRezMeans` | region/src/falcon_runtime.cpp:95-99 | a rez of one that does not changes nothing |
| `SchedulerProgress.TerminatorsGo` | region/src/falcon_runtime.cpp:86-88 | what is compiled is the text without the terminators at its end, and no more is taken off |
| `SchedulerProgress.AmpleTickServes` | region/src/falcon_runtime.cpp:142-171 | a tick with budget for all runs every script that has something to run for a whole slice, from where it was or from its next event, and leaves the others alone |
| `SchedulerProgress.NobodyStarves` | region/src/falcon_runtime.cpp:142-171 | in any run, a handler of a script left on that would end within n instructions has ended after n such ticks, whatever else was asked of the runtime meanwhile |
| `SchedulerProgress.TickResultMeans` | region/src/falcon_runtime.cpp:142-171 | a tick reports as visited as many scripts as it changed, as trapped as many as it trapped, and the instructions executed |
| `SchedulerHistory.QueueHeadFits` | region/src/falcon_runtime.cpp:41-46 | the event at the head of a queue carries arguments of its handler's parameter types |
| `SchedulerSoundness.DeclaredScriptsAreNeverTrapped` | region/src/falcon_runtime.cpp:54-171 | a script whose text declares its string locals before it reads them, in any run and whatever is asked of the runtime while it is in place, is never trapped and has no fault, and the sink is told of every call it makes |
| `SchedulerSoundness.HeardExactlyWhenTyped` | region/src/falcon_runtime.cpp:54-65 | the sink is told of a call if and only if the function is known and the arguments have its types |
| `SchedulerSoundness.HeardMeans` | region/src/falcon_runtime.cpp:54-65 | the sink is told the script's identity and its text, for the owner alone or aloud on the channel named |
| `SchedulerObject.LiveScript.constructor` | region/src/falcon_runtime.cpp:48-69 | a script owns a machine of its own, with the entry event started when it is enabled and handled |
| `SchedulerObject.LiveScript.Queue` | region/src/falcon_runtime.cpp:41-46 | an event is accepted exactly when enabled, not trapped, handled and there is room, and then goes last |
| `SchedulerObject.LiveScript.TakeTurn` | region/src/falcon_runtime.cpp:150-168 | one visit: seed an idle machine from the queue's front, run it, trap it on a fault |
| `SchedulerObject.FalconRuntime.RezScript` | region/src/falcon_runtime.cpp:83-100 | trailing terminators are dropped; a script that compiles replaces its key, one that does not changes nothing |
| `SchedulerObject.FalconRuntime.SetEnabled` | region/src/falcon_runtime.cpp:102-108 | one script's switch and nothing else |
| `SchedulerObject.FalconRuntime.EraseScript` | region/src/falcon_runtime.cpp:110-112 | one key goes, if it was there |
| `SchedulerObject.FalconRuntime.DispatchTouchStart` | region/src/falcon_runtime.cpp:130-140 | every script of the object is offered the event; the answer counts those that took it |
| `SchedulerObject.FalconRuntime.RunOneTick` | region/src/falcon_runtime.cpp:142-171 | a tick over the scripts in the map's order, whatever that is |
| `LlsdInverse.BinaryInversion` | region/src/llsd_binary.cpp:88-296 | parsing what was written, with anything after it, gives the document if and only if it is nested at most 32 deep, its integers and counts fit and its identifiers are canonical |
| `LlsdInverse.PrefixFree` | region/src/llsd_binary.cpp:226-281 | no document's bytes begin another's: the encoding delimits itself and is injective |
| `LlsdInverse.ParseThenWrite` | region/src/llsd_binary.cpp:88-296 | a parsed document is written back byte for byte if and only if no date was in it |
| `LlsdInverse.DateBecomesReal` | region/src/llsd_binary.cpp:108-116 | a date comes back as a real of the same bits and is written with another tag |
| `LlsdInverse.UuidRoundTrip` | region/src/llsd_binary.cpp:117-224 | sixteen bytes survive their spelling; a spelling survives its bytes if and only if lower case with dashes in place |
| `LlsdInverse.ReadsBack` | region/src/llsd_binary.cpp:88-281 | a value written anywhere is read back and the reader stops just after it |
| `LlsdInverse.ReadFits` | region/src/llsd_binary.cpp:88-185 | nothing the reader accepts is outside the format |
| `LlsdObject.Reader.TakeBytes` | region/src/llsd_binary.cpp:65-70 | bytes are taken when enough are left |
| `LlsdObject.Reader.TakeU32` | region/src/llsd_binary.cpp:48-56 | four bytes, most significant first |
| `LlsdObject.Reader.TakeU64` | region/src/llsd_binary.cpp:58-63 | two words make one |
| `LlsdObject.Reader.Value` | region/src/llsd_binary.cpp:88-185 | the recursive reader over one cursor, with its depth and count limits and checked terminators |
| `LlsdObject.Reader.Members` | region/src/llsd_binary.cpp:153-163 | the loop over a map's entries |
| `LlsdObject.Reader.Elements` | region/src/llsd_binary.cpp:175-179 | the loop over an array's elements |
| `LlsdObject.FormatUuid` | region/src/llsd_binary.cpp:120-128 | dashes before bytes 4, 6, 8 and 10 |
| `LlsdObject.ParseUuid` | region/src/llsd_binary.cpp:202-224 | dashes anywhere are skipped; a wrong digit or count gives the nil identifier |
| `LlsdObject.ParseDocument` | region/src/llsd_binary.cpp:285-290 | the whole document |
| `LlsdObject.Writer.AppendU32` | region/src/llsd_binary.cpp:187-192 | four bytes, most significant first |
| `LlsdObject.Writer.AppendCounted` | region/src/llsd_binary.cpp:194-197 | a length and the bytes |
| `LlsdObject.Writer.WriteValue` | region/src/llsd_binary.cpp:226-281 | the recursive writer appends the value's bytes and nothing else |
| `LlsdObject.SerializeDocument` | region/src/llsd_binary.cpp:292-296 | the whole document |
| `RenderMaterial.MaterialSurvivesTheWire` | region/src/render_material.cpp:146-214 | a material survives its own binary document if and only if each map is none or a canonical identifier that is not nil; no key of its own is reported unknown |
| `RenderMaterial.DocumentInverts` | region/src/render_material.cpp:146-214 | reading the document a material writes gives it back, a nil map as none |
| `RenderMaterial.CanonicalFormIsInjective` | region/src/render_material.cpp:73-109 | materials with one pre-hash form are one material |
| `RenderMaterial.CanonicalFormStands` | region/src/render_material.cpp:73-109 | which bytes of the pre-hash form are which field |
| `RenderMaterial.LayerInverts` | region/src/render_material.cpp:150-161 | each of the two layers is read from its own six keys |
| `RenderMaterial.ColourInverts` | region/src/render_material.cpp:162-168 | the four components come back in order |
| `RenderMaterial.FieldsByKey` | region/src/render_material.cpp:128-186 | whatever else a document holds and in whatever order, each field is read from its own wire key, kept in range, and is its default where the key is missing or holds no number |
| `RenderMaterial.WriteCanonicalForm` | region/src/render_material.cpp:77-109 | the appending code produces the specified form |
| `TextureEntryLaws.EncodeThenParse` | region/src/texture_entry.cpp:38-97 | writing and reading back normalizes an entry and is the identity if and only if present fields are a prefix of field width with non-zero masks |
| `TextureEntryLaws.BitsReadBack` | region/src/texture_entry.cpp:9-34 | every 32-bit mask survives its groups of seven bits |
| `TextureEntryLaws.SetFaceIsFunctionalUpdate` | region/src/texture_entry.cpp:99-145 | setting a face of a field changes what that face says of that field, and what any face says of any field is otherwise kept if and only if it is not another face of a field that was absent or whose default had another width, and that no exception covers |
| `TextureEntryLaws.SetFaceStaysTidy` | region/src/texture_entry.cpp:113-145 | edits keep values of field width and masks non-zero, and never two exceptions with one value or one that says the default |
| `TextureEntryLaws.FacesSurviveTheWire` | region/src/texture_entry.cpp:38-111 | what a face says of a field is kept by writing and reading if and only if the field is past the last with content, or what the face says has the field's width; so not where the field says nothing, nor where the face's exception or the default has another width |
| `TextureEntryLaws.ShortStreamSkipsFields` | region/src/texture_entry.cpp:41-51 | the input that shows a short stream need not read as absent from there on: two bytes are too few for the first fields and become the fifth |
| `TextureEntryStreams.AbsentFromTheFirstShort` | region/src/texture_entry.cpp:38-71 | of any bytes that parse: fields before the first short one are present, and all from it on are absent, so that present fields form a prefix, if and only if no byte is left over there or only the last field is short |
| `TextureEntryStreams.EncodedIsSpelled` | region/src/texture_entry.cpp:73-97 | whatever is written meets that condition: it first runs short just after the last field with content, with nothing left over |
| `TextureEntryStreams.ParseThenEncode` | region/src/texture_entry.cpp:38-97 | what was read is written back byte for byte if and only if every mask was in its shortest form and not zero, every field ended in its terminator, and nothing was left over |
| `TextureEntryStreams.UploadGrows` | region/src/mesh_model_upload.cpp:247-322 | the entry built for an upload is written back with one terminator more |
| `TextureEntryUsers.InstanceFaces` | region/src/mesh_model_upload.cpp:247-322 | the entry built for an upload, read by the other reader, gives each of the first eight faces its uploaded texture or the fallback and its colour, and every other face the defaults |
| `TextureEntryUsers.EveryFaceReadsItsOwn` | region/src/mesh_model_upload.cpp:262-289 | every uploaded face reads back its own texture if and only if all from the ninth on were uploaded with the fallback, and its own colour if and only if those are white |
| `TextureEntryUsers.NinthFaceIsLost` | region/include/homeworldz/mesh_model_upload.h:38 | nine faces of one uploaded texture: eight read it back and the ninth the fallback |
| `TextureEntryUsers.InstanceDefaults` | region/src/mesh_model_upload.cpp:305-322 | in the other fields every face reads one repeat each way, and no offset, rotation, bump, media, glow or material |
| `TextureEntryUsers.InstanceTextureEntry` | region/src/mesh_model_upload.cpp:247-322 | the loops, which stop at eight faces, build that entry's bytes, less the last terminator |
| `TextureEntryUsers.AppendFaceBits` | region/src/mesh_model_upload.cpp:170-180 | the second mask writer writes what the first writes |
| `TextureEntryUsers.VarintReadsBack` | region/src/object_asset.cpp:305-352 | the second mask reader reads what the first reads |
| `TextureEntryUsers.TextureIdsOfEncoded` | region/src/object_asset.cpp:305-352 | the ids listed from an encoded entry are those of its first field: the default and the written exceptions, in order |
| `TextureEntryUsers.TextureIdsOfUpload` | region/src/object_asset.cpp:305-352 | the ids listed from an uploaded entry are the fallback's and then its exceptions', in order: those of the fallback and of the first eight faces' textures and no other, the nil one left out |
| `TextureEntryUsers.TextureIdsOfShort` | region/src/object_asset.cpp:305-325 | fewer than sixteen bytes list nothing, and sixteen the one id |
| `TextureEntryUsers.IdsAreDistinct` | region/src/object_asset.cpp:305-352 | no id twice, none nil, none missing, each where it first occurs |
| `TextureEntryObject.ParseEntry` | region/src/texture_entry.cpp:38-71 | the reading loops |
| `TextureEntryObject.TakeFaceBits` | region/src/texture_entry.cpp:12-22 | at most five groups |
| `TextureEntryObject.FaceEntry.EncodeEntry` | region/src/texture_entry.cpp:73-97 | the writing loops, up to the last field with content |
| `TextureEntryObject.FaceEntry.FaceValueOf` | region/src/texture_entry.cpp:99-111 | the last exception that covers the face wins |
| `TextureEntryObject.FaceEntry.SetFaceValue` | region/src/texture_entry.cpp:113-145 | the in-place edit of the masks; a wrong face or width changes nothing |
| `TextureEntryObject.ListTextureIds` | region/src/object_asset.cpp:305-352 | the listing loop |
| `MeshQuantize.HalfAQuantum` | region/src/slmesh.cpp:187-196 | a coordinate inside its domain comes back within half of one 65535th of it |
| `MeshQuantize.QuantizeAgain` | region/src/slmesh.cpp:187-196 | quantizing what came back gives the same number |
| `MeshQuantize.EndsAreExact` | region/src/slmesh.cpp:187-196 | the ends of a domain come back exactly, and a flat domain gives its one value |
| `MeshQuantize.DomainMeans` | region/src/slmesh.cpp:208-222 | an axis's domain runs from its least coordinate to its greatest, or, where all are the same, to that one widened |
| `MeshQuantize.RereadNear` | region/src/slmesh.cpp:208-222 | packed over their own domain, all coordinates come back within half a step of what their axis really spans |
| `MeshQuantize.RereadKeepsDomain` | region/src/slmesh.cpp:208-222 | what comes back has the same domain and packs to the same numbers |
| `MeshAssetInverse.RoundTrip` | region/src/slmesh.cpp:256-823 | an asset that was written parses, whatever follows it, if and only if the reader's buffers can hold each block, and then to the mesh rounded once, without its bindings |
| `MeshAssetInverse.RoundingIsClose` | region/src/slmesh.cpp:187-222 | rounding keeps levels, faces, vertex counts, triangles and skin, and moves no position, texture coordinate, hull point or unit normal by more than half a step |
| `MeshAssetInverse.NothingFurtherIsLost` | region/src/slmesh.cpp:256-746 | what was read is written to the very bytes it was read from, less the bindings, and rounds to itself |
| `MeshAssetInverse.RoundTripTwice` | region/src/slmesh.cpp:256-823 | what was read, written and read again is the same mesh if and only if the blocks without bindings can be inflated; without bindings one round trip already reaches the bytes that are kept |
| `MeshAssetInverse.TooLargeToRead` | region/src/slmesh.cpp:237-254 | a valid mesh of one face that is written and, wherever the directory can name its blocks, cannot be read |
| `MeshAssetInverse.HighTooLarge` | region/src/slmesh.cpp:237-254 | any mesh whose first level's block no buffer holds is written and not read |
| `MeshAssetInverse.InflatableIsReachable` | region/src/slmesh.cpp:724-745 | blocks the reader can inflate always fit the directory's 32-bit offsets |
| `MeshAssetInverse.SkinReads` | region/src/slmesh.cpp:536-700 | a skin comes back as it was |
| `MeshAssetInverse.HeaderReads` | region/src/slmesh.cpp:724-783 | the directory is read back, the version stepped over, the blocks beginning just after it |
| `MeshAssetInverse.BlockFound` | region/src/slmesh.cpp:784-791 | each listed block is found where it was put, and is what was put there |
| `MeshAssetLaws.Decompresses` | region/src/slmesh.cpp:237-254 | growing the buffer gives back the text if and only if the last buffer tried is large enough |
| `MeshWire.InflatableIs` | region/src/slmesh.cpp:237-254 | a block can be inflated if and only if its text fits eight times its size, or 64 KiB, or a fourfold of that again and again up to 64 MiB |
| `MeshWire.ShapeOnTheWire` | region/src/slmesh.cpp:270-300 | positions, with their domain, and triangles stand under the names other readers look for |
| `MeshWire.SurfaceOnTheWire` | region/src/slmesh.cpp:301-338 | bindings and normals likewise, where there are any |
| `MeshWire.TextureOnTheWire` | region/src/slmesh.cpp:339-358 | texture coordinates likewise, with a domain of their own |
| `MeshWire.SkinOnTheWire` | region/src/slmesh.cpp:652-700 | a skin's entries, by name and in order |
| `MeshWire.DirectoryOnTheWire` | region/src/slmesh.cpp:724-740 | version 1, then under each block's name the size of the blocks before it and its own |
| `MeshWire.BlocksOnTheWire` | region/src/slmesh.cpp:702-723 | which level, hull or skin is compressed under which name |
| `MeshWire.WeightsInOrder` | region/src/slmesh.cpp:309-326 | the vertices' bindings stand one after the other in order |
| `MeshWire.WeightIsClose` | region/src/slmesh.cpp:318-320 | a weight is written as its part of 65535, rounded down, held between none and all of it |
| `MeshAssetLaws.LevelReads` | region/src/slmesh.cpp:256-534 | a level's text is read back, each submesh rounded |
| `MeshAssetLaws.PartsRead` | region/src/slmesh.cpp:464-498 | a submesh's entries are taken in whatever order they stand, unknown ones passed over |
| `MeshAssetLaws.SkipPasses` | region/src/slmesh.cpp:150-177 | skipping steps over exactly the value that was written, whatever is nested in it |
| `MeshAssetLaws.HullReads` | region/src/slmesh.cpp:370-400 | the hull comes back rounded |
| `MeshAssetLaws.FieldsAssemble` | region/src/slmesh.cpp:499-530 | the sizes of a written submesh agree, and its arrays are the rounded ones |
| `MeshAssetReader.Cursor.Word` | region/src/slmesh.cpp:88-111 | the byte loops of a count and of a double |
| `MeshAssetReader.Cursor.Skip` | region/src/slmesh.cpp:150-177 | the recursive skip over one cursor |
| `MeshAssetReader.Cursor.Components` | region/src/slmesh.cpp:420-446 | exactly the stated number of reals |
| `MeshAssetObject.DecompressBlock` | region/src/slmesh.cpp:237-254 | the growing buffer |
| `MeshAssetObject.Unpack` | region/src/slmesh.cpp:500-507 | vertex by vertex, axis by axis |
| `MeshAssetObject.Assemble` | region/src/slmesh.cpp:499-530 | the size checks and the three arrays |
| `MeshAssetObject.ReadSubmeshOf` | region/src/slmesh.cpp:457-498 | the loop over a submesh's entries |
| `MeshAssetObject.DecodeLevel` | region/src/slmesh.cpp:448-534 | a level, or nothing |
| `MeshAssetObject.DecodeSkin` | region/src/slmesh.cpp:539-608 | a skin, or nothing; lists named twice grow |
| `MeshAssetObject.DecodeHull` | region/src/slmesh.cpp:610-644 | a hull, or nothing |
| `MeshAssetObject.ParseAsset` | region/src/slmesh.cpp:748-823 | the whole asset; an absent level is the high one again |
| `MeshAssetWriter.FindBounds` | region/src/slmesh.cpp:208-222 | the least and greatest coordinate of each axis, a flat one widened |
| `MeshAssetWriter.PackCloud` | region/src/slmesh.cpp:296-300 | coordinates quantized and packed in order |
| `MeshAssetWriter.PackBindings` | region/src/slmesh.cpp:311-326 | at most four bindings, the marker only after fewer |
| `MeshAssetWriter.Buffer.PutSubmesh` | region/src/slmesh.cpp:259-364 | one submesh's bytes, its count agreeing with its entries |
| `MeshAssetWriter.Buffer.PutLevel` | region/src/slmesh.cpp:256-366 | a level's bytes |
| `MeshAssetWriter.Buffer.PutHull` | region/src/slmesh.cpp:370-398 | the hull's bytes |
| `MeshAssetSerializer.EncodeSkin` | region/src/slmesh.cpp:652-700 | the skin's block, or nothing when its tables disagree in length |
| `MeshAssetSerializer.IsValidLevel` | region/src/slmesh.cpp:402-416 | exactly the levels with vertices, whole triangles in range and attributes for every vertex |
| `MeshAssetSerializer.PutHeader` | region/src/slmesh.cpp:724-740 | the directory with running offsets |
| `MeshAssetSerializer.SerializeAsset` | region/src/slmesh.cpp:702-746 | the whole asset, or nothing |
| `JsonText.BothDecodersInvert` | region/src/session_protocol.cpp:59-127 | for any bytes, both decoders read from the encoder's output the same well-formed text, equal to the bytes if and only if they were well-formed, and stable |
| `JsonText.SessionExtendsSnapshot` | region/src/region_storage.cpp:195-242 | on any bytes at all, a text the second decoder reads is read by the first too, the same with the same end |
| `JsonText.SessionTakesTabs` | region/src/session_protocol.cpp:68-71 | not the other way: a raw control character |
| `JsonText.SessionTakesPairs` | region/src/session_protocol.cpp:94-107 | nor for a surrogate pair, which the first decoder joins |
| `JsonText.SequenceLengthIsTheTable` | region/src/api_models.cpp:11-32 | the validator accepts exactly the sequences of the table in section 4 of RFC 3629 |
| `JsonStandard.Utf8IsTheTable` | region/src/session_protocol.cpp:109-122 | what a decoder writes for a code point is a sequence of the table in section 4 of RFC 3629 and carries that code point |
| `JsonStandard.EscapesAreJson` | region/src/session_protocol.cpp:72-81 | the two-character escapes are those of section 7 of RFC 8259 |
| `JsonStandard.EncodedEscapes` | region/src/api_models.cpp:47-84 | which escape each character is written as, and that well-formed sequences are written as they are |
| `JsonText.CleanLaws` | region/src/api_models.cpp:36-84 | what the encoder carries is well-formed, is the text itself if and only if that was, and is carried unchanged again |
| `JsonObject.SequenceLengthAt` | region/src/api_models.cpp:11-32 | the validator's loop |
| `JsonObject.EncodeString` | region/src/api_models.cpp:47-84 | the encoder's loop |
| `JsonObject.ParseStringAt` | region/src/session_protocol.cpp:61-127 | the first decoder's loop |
| `JsonObject.SnapshotReader.String` | region/src/region_storage.cpp:195-242 | the second decoder's loop |
| `SessionEnvelope.EnvelopeInverts` | region/src/session_protocol.cpp:246-300 | an encoded envelope is read back with its type and correlation id as well-formed text and its payload byte for byte, whatever balanced object that is; only an empty type is refused |
| `SessionEnvelope.FieldFound` | region/src/session_protocol.cpp:18-57 | a field of the top level is found where its value is, names inside strings and nested objects are not, and a missing one is not |
| `SessionEnvelope.ObjectIsItsExtent` | region/src/session_protocol.cpp:131-150 | the extent of an object is the object, whatever follows |
| `EnvelopeText.EncodedText` | region/src/session_protocol.cpp:292-300 | an envelope's text spelled out, a correlation id and a payload only where there are any |
| `EnvelopeText.KeyFoundThroughGaps` | region/src/session_protocol.cpp:36-48 | a key of the top level is found with any spaces and tabs about its colon |
| `EnvelopeText.NumberReads` | region/src/session_protocol.cpp:264-270 | a version is read as the integer its decimal text stands for, any 32-bit one |
| `EnvelopeText.AbsentFieldsAreDefaults` | region/src/session_protocol.cpp:246-290 | version, correlation id and payload have their defaults where the object lacks them |
| `JsonObject.FindFieldIn` | region/src/session_protocol.cpp:18-57 | the scan with its quote, escape and depth state |
| `JsonObject.ObjectExtentAt` | region/src/session_protocol.cpp:131-150 | the brace-counting scan |
| `JsonObject.ParseEnvelopeText` | region/src/session_protocol.cpp:246-290 | the four fields in turn, with their errors |
| `Base64.DecodeInvertsEncode` | region/src/llsd_xml.cpp:100-128 | decoding gives back every byte string, in both paddings and with white space anywhere (section 4 of RFC 4648) |
| `Base64.EncodeByGroups` | region/src/session_protocol.cpp:164-194 | the encoder by whole groups and tails computes the one encoding |
| `Base64.EncodeByFormula` | region/src/viewer_capabilities.cpp:79-96 | the encoder by one formula computes the same one |
| `Base64.DecodeText` | region/src/llsd_xml.cpp:100-128 | the bit buffer yields the decoded bytes, or nothing at a foreign character |
| `Base64Standard.LettersAreTheAlphabet` | region/src/llsd_xml.cpp:100-109 | the letters are those of table 1 of RFC 4648, and no other character has a value |
| `Base64Standard.DecodesExactly` | region/src/llsd_xml.cpp:110-127 | a text decodes if and only if all before its first padding are letters and white space |
| `Base64Standard.TestVectors` | region/src/viewer_capabilities.cpp:79-96 | the test vectors in section 10 of RFC 4648 |
| `Parcels.EveryRunPartitions` | region/src/parcel.cpp:128-324 | from one parcel over the region, after any divides and joins: every cell is in exactly one parcel, none is empty, ids are unique and the areas add up to the region's |
| `Parcels.JoinUndoesDivide` | region/src/parcel.cpp:232-324 | a divide, then a join that meets the two parcels and no other by their owner, restores every parcel as it was |
| `ParcelMetres.DivideMeans` | region/src/parcel.cpp:232-277 | a divide is granted if and only if the rectangle of metres covers part of one parcel and nothing else; the new parcel has exactly the four-metre cells the rectangle overlaps, every other parcel its own less those, and nothing else changes |
| `ParcelMetres.JoinMeans` | region/src/parcel.cpp:279-324 | a join is granted if and only if the rectangle meets two parcels or more, all the owner's; it leaves those it does not meet as they were and one of all the cells of those it meets, under the least of their ids |
| `ParcelMetres.OverlappedCovers` | region/src/parcel.cpp:235-238 | which cells a rectangle of metres covers, its corners given either way round |
| `ParcelMetres.SingleMeans` | region/src/parcel.cpp:128-140 | a new region is one parcel of all its cells, by name and id |
| `Parcels.StepKeeps` | region/src/parcel.cpp:232-324 | a divide or join, granted or refused, keeps the partition |
| `Parcels.SingleIsPartition` | region/src/parcel.cpp:128-140 | one parcel over all the cells is a partition |
| `Parcels.AreasAddUp` | region/src/parcel.cpp:27-33 | areas of a partition add up to the region's square metres |
| `Parcels.DivideKeepsPartOfTheSource` | region/src/parcel.cpp:257-259 | comparing areas refuses exactly the rectangle that is the whole parcel |
| `ParcelBits.BitSetGets` | region/src/parcel.cpp:92-109 | a bit set is the only bit changed |
| `ParcelBits.BitSetCells` | region/src/parcel.cpp:92-109 | over cells, a bit set adds one and a bit cleared removes it |
| `ParcelBits.CellIsItsBit` | region/src/parcel.cpp:92-109 | cells are bits row by row from the south-west, eight a byte from the lowest bit |
| `ParcelBits.FullBitmap` | region/src/parcel.cpp:111-126 | every cell of the region |
| `ParcelBits.Area` | region/src/parcel.cpp:27-33 | sixteen square metres for every cell held |
| `ParcelBits.MoveRect` | region/src/parcel.cpp:269-273 | the rectangle goes from one bitmap to the other |
| `ParcelObject.ParcelSet.constructor` | region/src/parcel.cpp:128-140 | one parcel over the whole region |
| `ParcelObject.ParcelSet.ParcelAtCell` | region/src/parcel.cpp:177-182 | the first parcel that has the cell, none outside the region |
| `ParcelObject.ParcelSet.HoldingParcel` | region/src/parcel.cpp:242-256 | the one parcel every cell of the rectangle is in, if there is one |
| `ParcelObject.ParcelSet.DivideParcel` | region/src/parcel.cpp:232-277 | the in-place divide does what the one over sets of cells does |
| `ParcelObject.ParcelSet.TouchedIds` | region/src/parcel.cpp:287-296 | the ids of the parcels met, each once |
| `ParcelObject.ParcelSet.JoinParcels` | region/src/parcel.cpp:279-324 | the in-place join does what the one over sets of cells does |
| `ParcelObject.CreateParcelSet` | region/src/parcel.cpp:11-15 | a size that is not a positive multiple of four metres is refused |
| `MirrorObject.StaticSceneMirror.SynchronizeScene` | region/src/physics_scene.cpp:405-434 | after a full pass the mirror holds exactly what the scene asks for, whatever it held before and in whatever order the scene was met; no body leaks |
| `MirrorObject.StaticSceneMirror.SynchronizeLinkset` | region/src/physics_scene.cpp:304-403 | one linkset's bodies are replaced and no other's touched; it fails exactly when a member is unknown, not one deep, or refused by the world |
| `MirrorObject.StaticSceneMirror.SynchronizeCompound` | region/src/physics_scene.cpp:355-402 | a physical linkset becomes one body of its colliding parts |
| `MirrorObject.StaticSceneMirror.SynchronizeEntity` | region/src/physics_scene.cpp:266-302 | what does not collide has no body; a refused replacement leaves the old body standing |
| `MirrorObject.StaticSceneMirror.Remove` | region/src/physics_scene.cpp:436-442 | the body goes from the world and from the map together |
| `MirrorObject.StaticSceneMirror.BodyIdOf` | region/src/physics_scene.cpp:444-447 | an id that is not zero is the live body of the entity |
| `Mirror.LinksetSyncIsEnough` | region/src/physics_scene.cpp:304-434 | synchronizing the edited linkset equals a full pass over the new scene if and only if its compound does not hang on a root without object id |
| `Mirror.NamelessRootIsDropped` | region/src/physics_scene.cpp:304-434 | the scene at which it does not: a full pass drops the compound of a physical root without object id, and synchronizing the linkset puts it back |
| `Mirror.Pruned` | region/src/physics_scene.cpp:406-433 | after every linkset, dropping what is not present leaves the mirror of the scene |
| `MirrorMeaning.MirroredMeans` | region/src/physics_scene.cpp:405-434 | which entities have bodies after a full pass, and what those are, said of the fields of the scene |
| `MirrorMeaning.PhysicalRootsMove` | region/src/physics_scene.cpp:275-276 | a body in the mirror is dynamic if and only if it is a physical root's, and each is its own entity's |
| `MirrorMeaning.LinksetMeans` | region/src/physics_scene.cpp:304-403 | the same of one linkset synchronized: which members have bodies, what they are, and what a compound is made of |
| `MirrorMeaning.NothingMovesSuspended` | region/src/physics_scene.cpp:329-357 | while dynamics are suspended every body of a linkset is static |
| `MirrorMeaning.AloneMeans` | region/src/physics_scene.cpp:266-302 | the body of one entity synchronized on its own |
| `Permissions.EveryRunIsSound` | region/src/scene.cpp:51-97 | through any updates by anyone: group and everyone within owner, owner within base plus move, everyone never modify, next owner copy or transfer, everyone's export only with export in base and owner and full next-owner rights; only the owner changes anything |
| `Permissions.UpdateKeepsSound` | region/src/scene.cpp:51-97 | any one update keeps those |
| `Permissions.ObjectMasks.ApplyUpdate` | region/src/scene.cpp:51-97 | the in-place update, and exactly when it is refused |
| `PermissionMeaning.GrantedExactly` | region/src/scene.cpp:54-96 | exactly which requests are granted, bit by bit |
| `PermissionMeaning.OwnerUpdateMeans` | region/src/scene.cpp:62-67 | bit by bit, the owner has what is wished within the base, and move; the group and everyone lose what the owner has not; nothing else changes |
| `PermissionMeaning.GroupUpdateMeans` | region/src/scene.cpp:68-71 | bit by bit, the group has what is wished, of what the owner has; nothing else changes |
| `PermissionMeaning.EveryoneUpdateMeans` | region/src/scene.cpp:72-81 | bit by bit, everyone has what is wished, of what the owner has, and never modify; nothing else changes |
| `PermissionMeaning.NextOwnerUpdateMeans` | region/src/scene.cpp:82-90 | bit by bit, the next owner has what is wished within the base, move with any right, and transfer where copy is missing; everyone loses export unless the next owner has every right; nothing else changes |
| `Permissions.ItemUpdateIsSound` | region/src/scene.cpp:99-125 | an item update leaves masks that agree, whatever was asked; the next owner keeps copy or transfer if and only if copy was asked for and is in the base, or transfer is in the base |
| `Permissions.NextOwnerMayBeStuck` | region/src/scene.cpp:99-125 | the item at which it does not |
| `Permissions.TaskItem.ApplyUpdate` | region/src/scene.cpp:99-125 | all of an item update or none of it |
| `PermissionMeaning.ItemUpdateMeans` | region/src/scene.cpp:107-121 | an item's masks after an update, bit by bit |
| `Permissions.LinksetIgnoresOrder` | region/src/scene.cpp:145-163 | a linkset's effective permissions do not depend on the order its parts are met and only shrink when whole parts are added |
| `Permissions.LinksetShrinks` | region/src/scene.cpp:127-163 | they only shrink when items are added inside any of its parts, when parts are added, or both |
| `Permissions.AddedItemShrinks` | region/src/scene.cpp:127-163 | one item put inside one part |
| `Permissions.PartIgnoresOrder` | region/src/scene.cpp:127-143 | the same of one object and its items |
| `Permissions.EffectiveOf` | region/src/scene.cpp:127-143 | the loop over items and rights |
| `Permissions.EffectiveOfAll` | region/src/scene.cpp:145-163 | the loop over a linkset's parts |
| `PermissionMeaning.PartEffectiveMeans` | region/src/scene.cpp:127-143 | an object's effective rights, bit by bit: its own, the restricted ones only where every item has them, and export only where no restricted one is missing |
| `PermissionMeaning.LinksetEffectiveMeans` | region/src/scene.cpp:145-163 | a linkset's: those all its parts have, and export only where all have every restricted one |
| `MeshConvert.ToSubmesh` | region/src/mesh_convert.cpp:150-179 | succeeds exactly when indices, joints and size allow; emitted vertices are the used ones, once each in first-use order, all below 65535, and the k-th index names the vertex the k-th source index named |
| `MeshConvert.IndexNamesTheSameVertex` | region/src/mesh_convert.cpp:152-179 | the vertex an emitted index names carries the position, normal, texture coordinate and bindings of the one the source index named |
| `MeshConvert.ConvertedIsValid` | region/src/slmesh.cpp:402-416 | what is emitted for some indices is a submesh the asset's writer takes if and only if they are whole triangles and some |
| `MeshConvert.ConvertedLevelIsValid` | region/src/mesh_convert.cpp:608-625 | so is a level of one submesh a face, if and only if there is a face and each list is whole triangles and some |
| `MeshConvert.FirstUsesLaws` | region/src/mesh_convert.cpp:156-177 | first-use order: every element once, none other, and a longer list only adds at the end |
| `MeshConvert.CompactJoints` | region/src/mesh_convert.cpp:567-601 | succeeds exactly when the mesh binds some declared joints and not too many; the table is those joints in first-use order |
| `MeshConvert.JointLimit` | region/src/mesh_convert.cpp:585-593 | a mesh that binds n distinct joints is accepted if and only if n is at most 255 |
| `MeshConvert.CompactedSkinIsValid` | region/src/mesh_convert.cpp:599-601 | the compacted table is a skin the writer takes |
| `MeshConvert.InfluenceKeepsItsJoint` | region/src/mesh_convert.cpp:577-601 | a renumbered binding names a joint of the same name and matrix in a slot below 255 |
| `MeshConvert.WrittenBindingsKeepTheirJoints` | region/src/slmesh.cpp:311-326 | the writer passes over none of a converted vertex's bindings: each of the first four is one byte that names the joint the source bound, and its weight, with the marker after fewer |

## Left out

- Integer width of code: instruction, constant and slot counts are unbounded; the source's casts to 32 bits are not modelled.
- C++ signed overflow in the machine's arithmetic fixes no result; both the machine and the evaluator use one wrapping operation.
- Stack depth of the recursive parser, compiler and readers.
- Error messages are datatypes that say what was wrong and where; their wording is not modelled.
- The runtime's host sink: each script's own calls are recorded in its machine, their interleaving between scripts is not; a runtime without a sink hears nothing. `object_script_status` and `size` only read.
- Iteration order of the runtime's `unordered_map` is a parameter of a tick.
- Hosts that return values: compiler correctness and safety are proved for hosts that return nothing, as the installed one does; the machine and interruption are modelled for any host.
- SchedulerObject.FalconRuntime.RunOneTick: asks that every queued event be one its handler takes, and `Vm.VM.DispatchEvent` that a handler have a slot for each parameter; every run and every compiled program provide them (`SchedulerSafety.EveryRunIsSafe`, `Scheduler.CompiledCovers`), so the exceptions that their absence would raise are not modelled.
- LLSD doubles travel as their eight bytes; the conversion of a double to an integer, where a material's field is one, is a parameter. Compressed LLSD is not part of this model.
- Mesh assets: coordinates are reals in a float's range, so rounding inside a float operation, infinities and NaN are not modelled. zlib is an inverse pair that never fails to compress; the bits of a double and the widening `low + 0.001f` are given functions, and the round trip requires that the published bounds and the skin's numbers survive as doubles, which floats do, and that the blocks together stay below 4 GiB, which blocks the reader can inflate always do (`MeshAssetInverse.InflatableIsReachable`). Vertex bindings are written and, as in the source, not read. `bounds` found in three places is one method.
- Texture entries: rounding of a face's colour to bytes is an input; exceptions of the wrong width are modelled as the writer skips them.
- Parcels: rectangle corners are reals; the 32-bit overflow of an area and the constructor from persisted parcels, which need not partition anything, are not modelled, nor `parcel_covering`, `parcel_at`, overlays and access rules.
- The physics mirror: body definitions are abstract values and a compound's parts a map, so order and floating-point sums of masses are not modelled. Whether the world refuses a body is a fixed predicate of its definition.
- JSON numbers other than an envelope's version, vectors and the entity snapshot record.
- Permission masks are sets of bit numbers; a new object's masks and the owner test are inputs.
- Mesh conversion: glTF parsing, simplification, normalization and skin extraction; attributes only pass through.
- Networking, storage, HTTP, the grid services, image and terrain code, avatar motion and the small session registries.
