# Verified models of the coursework algorithms

Dafny models of the parts of this repository with a hard specification, and proofs that they meet it. Each source file that
changes state in place has a class whose methods do the same; each method is proved against a specification, and what the
source promises is proved about that specification. `dafny verify dfyconfig.toml` checks everything.

| files | subject |
|---|---|
| TinyTree, TinyMachine, TinyCodeGen, TinyCorrect | the TINY code generator with backpatching, the TM machine, and semantic preservation |
| TinyGrammar, TinyParse | the recursive-descent parser: exactly the grammar, and a round trip through a printer with the fewest parentheses |
| HuffmanHeap, HuffmanTrees, HuffmanCode | the indexed heap and the optimality of the merge loop |
| BufferCache, WriteAheadLog | the xv6 buffer cache and redo log: crash atomicity over whole runs |
| InodeBlocks, InodeSpace | the xv6 block map with a double-indirect block, truncation, reading and writing as operations on byte sequences, over whole runs |
| SchedulerModel, SchedulerQueues, SchedulerShares, SchedulerLimit, SchedulerEffects, Scheduler | the feedback queues and the stride scheduler of `proc.c`, and what each kernel entry does to every process |
| Allocator | the K&R allocator |
| Pipe, GrepMatch | the bounded pipe over all interleavings, and the regular expressions of grep |
| LockCoupling, TreeDelete | the hand-over-hand search tree: all interleavings of insertions, and deletion by one thread |
| Mazes, AStar, Iddfs | shortest ways by A* and by iterative deepening |
| AprioriModel, Apriori | frequent itemsets and association rules |
| Dbscan, TopologicalSort | density-based clustering, and topological sorting with an explicit stack |

Where the code does less than its name promises, the model follows the code:

- `tm.c` lets the address 1024 pass its range tests; that step is `srFAULT`, and loading such a location is `OutsideMemory`.
- `Topological_Sort.java` starts its scan at column `source`, so it misses edges from the source to lower nodes:
  `RightIffCovered` says exactly when that matters, `LowerNodeMissed` is an input on which it does.
- A Huffman code of one symbol is the empty word: `UniquelyDecodable` is an if-and-only-if.
- A writer that is killed, or finds the reading end closed, on a full pipe returns without waking the readers. `LosesIff` says
  which turns leave a reader asleep beside data: those of such a writer with more than 512 bytes left while a reader sleeps.
  `NoLostWakeupIff` lifts this to runs, and `LostWakeup` is a run in which it happens.
- The stride scan starts from the bound 10000000 and falls back on process 0, in whatever state it is, when all pass values have
  reached it. `DecidedIff` says exactly when such a round upsets the queues, `AlwaysQueued` lifts this to runs, and `LimitReached`
  is a run from boot in which process 0 runs in its sleep without a queue slot. `DecidedFairIff` says exactly when such a round
  gives the processor to a process that is ahead, `FairIffRounds` lifts this to runs with shares of at least one percent, and
  `UnfairReached` is a run from boot in which it happens.
- `malloc` computes in 32 bits. `FitsIff` and `BackedIff` say exactly which requests can be met: those up to 2^31 - 16 bytes. For
  larger ones the argument of `sbrk` becomes negative or zero, and the call that seems to succeed gives no memory
  (`NothingBehind`, `LessThanBefore`), until the rounding itself wraps around and one unit is handed out.
- `log_write` tests for room before it looks for the block in the group. So operations that keep to ten blocks each can still
  panic with "too big a transaction", by writing a block again when 30 are changed: `PanicsIffFull` says that this is the only
  way, `FullRun` is a run in which it happens.
- The buffer cache panics when all buffers are in use or dirty: `Commit`, `LogWrite` and `RecoverFromLog` say exactly when.

## Model

| member | source | states |
|---|---|---|
| TinyMachine.Simulator.StepTM | (4-2)Compiler/tm.c:307-397 | one instruction executed in place is the machine step `Step`, with every result code: program counter outside, address outside, the address equal to the memory size that passes the range test, division by zero with truncation, IN without input |
| TinyMachine.DivideTruncates | (4-2)Compiler/tm.c:374-378 | DIV leaves the quotient q with abs(t * q) <= abs(s) and abs(s - t * q) < abs(t), for either sign, and is refused exactly for the divisor zero |
| TinyMachine.JumpsBySign | (4-2)Compiler/tm.c:387-392 | each jump is taken exactly for the signs of the register that its name says, and sets the program counter only |
| TinyMachine.AddressRange | (4-2)Compiler/tm.c:326-333 | loads and stores work for the addresses 0 to 1023, pass the range test for 1024, and are refused for all others |
| TinySemantics.TruncatedOnce | (4-2)Compiler/tm.c:374-378 | these two bounds fix the quotient |
| TinySemantics.CDivTruncates | (4-2)Compiler/tm.c:374-378 | the quotient of the source language meets these bounds |
| TinyMachine.Simulator.ReadInstructions | (4-2)Compiler/tm.c:221-303 | loading clears registers, sets word 0 to 1023 and all others to 0, and each location holds the last line for it or nothing; it succeeds exactly if every location lies inside instruction memory, and then the state is the reset state |
| TinyMachine.StepsSplit | (4-2)Compiler/tm.c:307-397 | the machine is deterministic: of two runs from one state the shorter is the start of the longer |
| TinyCodeGen.Generator.Emit | (4-2)Compiler/code.c:34-54 | a line goes to the current location, the location moves on by one and the high-water mark never falls |
| TinyCodeGen.Generator.EmitRMAbs | (4-2)Compiler/code.c:90-97 | an absolute target becomes a displacement from the next instruction |
| TinyCodeGen.Generator.EmitSkip | (4-2)Compiler/code.c:60-65 | the locations skipped are left open and the first of them is returned |
| TinyCodeGen.Generator.FillIn | (4-2)Compiler/code.c:70-80 | going back to a skipped location, writing a jump to the end there and restoring leaves the generator at the end again |
| TinyCodeGen.Generator.GenExp | (4-2)Compiler/cgen.c:98-166 | each call writes the lines of its expression, restores `tmpOffset`, and leaves `emitLoc == highEmitLoc` |
| TinyCodeGen.Generator.GenIf | (4-2)Compiler/cgen.c:31-55 | the two jumps of an if are written after the code they jump over, and nothing else is out of order |
| TinyCodeGen.Generator.GenRepeat | (4-2)Compiler/cgen.c:57-69 | the jump of a repeat goes back to the first location of its body |
| TinyCodeGen.Generator.CGen | (4-2)Compiler/cgen.c:171-185 | a statement chain writes its statements in order and restores `tmpOffset` and `emitLoc == highEmitLoc` |
| TinyCodeGen.Generator.CodeGen | (4-2)Compiler/cgen.c:196-212 | prelude, program and HALT are written, and the file describes exactly the program code from location 0 on |
| TinyCodeGen.ExpImage | (4-2)Compiler/cgen.c:98-166 | the lines written for an expression describe one gap-free block with its code, wherever it is placed |
| TinyCodeGen.StmtImage | (4-2)Compiler/cgen.c:25-95 | backpatching loses nothing: whatever the order of the lines, they describe one gap-free block with the code of the statement |
| TinyCodeGen.StmtsImage | (4-2)Compiler/cgen.c:171-185 | the same for statement chains |
| TinyCodeGen.NoLocationTwice | (4-2)Compiler/code.c:34-97 | a code file with as many lines as locations writes none of them twice |
| TinyCodeGen.ProgramImage | (4-2)Compiler/cgen.c:196-212 | every location of the program, the skipped ones included, is written exactly once |
| TinyCorrect.ComparisonCorrect | (4-2)Compiler/cgen.c:142-155 | the five instructions of a comparison leave 1 in ac if it holds and 0 if not |
| TinyCorrect.ExpCorrect | (4-2)Compiler/cgen.c:98-166 | running the code of an expression leaves its value in ac and changes only ac, ac1 and the temporaries at or below the current offset, or stops at a division by zero exactly if the expression has no value |
| TinyCorrect.OpKCorrect | (4-2)Compiler/cgen.c:117-161 | the left operand survives the evaluation of the right one in its temporary word |
| TinyCorrect.IfCorrect | (4-2)Compiler/cgen.c:31-55 | the code of an if runs the branch that the test selects and no part of the other |
| TinyCorrect.RepeatCorrect | (4-2)Compiler/cgen.c:57-69 | the code of a repeat runs the body until the test holds, for any number of rounds |
| TinyCorrect.StmtCorrect | (4-2)Compiler/cgen.c:25-95 | compiled statements act on the variable words, the input and the output as the statement does |
| TinyCorrect.StmtsCorrect | (4-2)Compiler/cgen.c:171-185 | the same for statement chains |
| TinyCorrect.BootCode | (4-2)Compiler/tm.c:221-303 | after loading, the program code lies in instruction memory |
| TinyCorrect.CompilerCorrect | (4-2)Compiler/cgen.c:196-212 | for every tree that fits and every input: the machine started from reset makes the same output, leaves each variable in its word, and stops as the program ends (HALT, division by zero, waiting for input); while the program only repeats its loops the machine keeps running |
| TinyCorrect.StopsIffEnds | (4-2)Compiler/cgen.c:196-212 | the machine stops with a result and an output exactly if the program ends in that way with that output; so it runs forever exactly if the program does, and it never faults on memory |
| TinyCorrect.StoppedOnce | (4-2)Compiler/tm.c:307-397 | where and when a run stops is unique |
| TinyCorrect.CompileAndLoad | (4-2)Compiler/cgen.c:196-212 | generating the code and loading it puts the simulator into the state that the correctness theorem starts from |
| TinyParse.ParseIff | (4-2)Compiler/parse.c:43-215 | a token list is accepted with tree t exactly if the grammar derives it with tree t: + - * / associate to the left, comparison does not associate, siblings come in order |
| TinyParse.ParsedIff | (4-2)Compiler/parse.c:43-215 | a token list is accepted exactly if the grammar derives it |
| TinyParse.Unambiguous | (4-2)Compiler/parse.c:43-215 | no token list has two trees |
| TinyParse.RoundTrip | (4-2)Compiler/parse.c:208-215 | parsing the text printed from a tree gives back the tree |
| TinyParse.WriteIsShortest | (4-2)Compiler/parse.c:127-206 | the printed text has the fewest tokens, so the fewest parentheses, of all texts of the tree |
| TinyParse.TreesOfTexts | (4-2)Compiler/parse.c:43-215 | the trees that parsing can return are exactly those with non-negative literals and non-empty bodies |
| TinyParse.ExpFound | (4-2)Compiler/parse.c:127-206 | every derivation of an expression is found, whatever follows that cannot continue it |
| TinyParse.StmtFound | (4-2)Compiler/parse.c:62-125 | every derivation of a statement is found |
| TinyParse.ExpSound | (4-2)Compiler/parse.c:127-206 | what the parser accepts as an expression is one |
| TinyParse.StmtSound | (4-2)Compiler/parse.c:62-125 | what the parser accepts as a statement is one |
| TinyParse.Parser.StmtSequence | (4-2)Compiler/parse.c:43-60 | the loop that links siblings reads what the recursive grammar reads and sets the error flag exactly on a syntax error |
| TinyParse.Parser.Statement | (4-2)Compiler/parse.c:62-76 | an unexpected token is reported and skipped |
| TinyParse.Parser.IfStmt | (4-2)Compiler/parse.c:78-90 | an else part is read exactly if the next token is ELSE |
| TinyParse.Parser.SimpleExp | (4-2)Compiler/parse.c:143-156 | the loop over + and - builds the left-associative tree |
| TinyParse.Parser.Term | (4-2)Compiler/parse.c:158-171 | the loop over * and / builds the left-associative tree |
| TinyParse.Parser.Factor | (4-2)Compiler/parse.c:173-206 | a factor is a number, a name or a parenthesised expression |
| TinyParse.Parser.ParseProgram | (4-2)Compiler/parse.c:208-215 | the error flag stays down exactly if some derivation has these tokens, and then the tree is the one derived; the parser ends on every token list |
| HuffmanHeap.MinHeap.Exch | (2-2)Algorithm/homework/runtime.cpp:18-27 | exchanging two entries keeps `qp` the inverse of `pq` |
| HuffmanHeap.MinHeap.FixUp | (2-2)Algorithm/homework/runtime.cpp:64-71 | an entry that is out of order towards its parent only finds its place; the same items are queued |
| HuffmanHeap.MinHeap.MinHeapify | (2-2)Algorithm/homework/runtime.cpp:73-87 | an entry that is out of order towards its children only finds its place; entries behind the heap stay |
| HuffmanHeap.MinHeap.Insert | (2-2)Algorithm/homework/runtime.cpp:89-94 | the item is queued besides the others, in heap order |
| HuffmanHeap.MinHeap.ExtractMin | (2-2)Algorithm/homework/runtime.cpp:96-102 | the item taken out has the least priority of those queued, and only it is gone |
| HuffmanHeap.FirstIsLeast | (2-2)Algorithm/homework/runtime.cpp:58-62 | in heap order the first position has the least priority |
| HuffmanTrees.ExchangeCost | (2-2)Algorithm/homework/runtime.cpp:159-202 | exchanging two leaves changes the weighted path length by the difference of the weights times the difference of the depths |
| HuffmanTrees.DeepestSiblings | (2-2)Algorithm/homework/runtime.cpp:159-166 | every full binary tree has two sibling leaves at its greatest depth |
| HuffmanTrees.GreedyChoice | (2-2)Algorithm/homework/runtime.cpp:159-166 | joining the two lightest leaves is a best first move |
| HuffmanCode.NoneCheaper | (2-2)Algorithm/homework/runtime.cpp:159-166 | no tree over the nodes queued before a merge costs less than the merges that follow |
| HuffmanCode.TreeBuilt | (2-2)Algorithm/homework/runtime.cpp:159-180 | the merges build a tree with exactly these leaves, whose depths are the lengths computed |
| HuffmanCode.CostIsSum | (2-2)Algorithm/homework/runtime.cpp:189-203 | the cost of a tree is the sum of weight times depth over its leaves |
| HuffmanCode.HuffmanOptimal | (2-2)Algorithm/homework/runtime.cpp:159-203 | the encoded length is the least over all full binary trees on the symbols, and some tree has it; for all weights, negative ones included |
| HuffmanCode.PrefixFree | (2-2)Algorithm/homework/runtime.cpp:191-202 | no code word is the start of another |
| HuffmanCode.ChildrenCodes | (2-2)Algorithm/homework/runtime.cpp:159-202 | of two nodes joined the lighter one is on the left; its codes go on with 0 and those on the right with 1 |
| HuffmanCode.DecodeEncode | (2-2)Algorithm/homework/runtime.cpp:191-202 | with two symbols or more every encoded text decodes to itself |
| HuffmanCode.UniquelyDecodable | (2-2)Algorithm/homework/runtime.cpp:191-202 | encoding loses nothing exactly if there are at least two symbols: a single symbol gets the empty code word |
| HuffmanCode.Huffman.MergeLoop | (2-2)Algorithm/homework/runtime.cpp:159-166 | the loop leaves a complete record of merges, each of the two lightest queued nodes |
| HuffmanCode.Huffman.Lengths | (2-2)Algorithm/homework/runtime.cpp:178-180 | the lengths computed from the root down are the numbers of edges from the root |
| HuffmanCode.Huffman.CodeWord | (2-2)Algorithm/homework/runtime.cpp:191-202 | the word written backwards into the shared buffer is the way from the root, ended by a zero, and fits |
| HuffmanCode.Huffman.Compress | (2-2)Algorithm/homework/runtime.cpp:111-203 | for every list of at least one weight the sum printed is the least cost of any code tree over these weights |
| BufferCache.Cache.Bget | (3-1)OperatingSystem/xv6-public/bio.c:61-93 | the buffer of the block is found, or the least recently used of the clean unused ones is recycled without any reader noticing; it fails exactly if every other buffer is in use or dirty |
| BufferCache.Cache.Bread | (3-1)OperatingSystem/xv6-public/bio.c:96-106 | the caller holds the block, and no block looks different to anyone; it succeeds exactly if the block is busy already or fewer blocks are busy than there are buffers |
| BufferCache.RoomIff | (3-1)OperatingSystem/xv6-public/bio.c:61-93 | a block has a buffer, or gets one, exactly if it is busy (held or dirty) or fewer blocks are busy than there are buffers |
| BufferCache.Cache.Bwrite | (3-1)OperatingSystem/xv6-public/bio.c:109-116 | one block write: the disk holds what the cache shows for this block, which is no longer dirty |
| BufferCache.Cache.Brelse | (3-1)OperatingSystem/xv6-public/bio.c:120-141 | the reference count falls by one; at zero, and only then, the buffer moves to the front of the list, which changes nothing that the cache shows |
| BufferCache.MovedToFront | (3-1)OperatingSystem/xv6-public/bio.c:130-137 | the order of the buffer list does not matter to what the cache holds |
| BufferCache.Recycled | (3-1)OperatingSystem/xv6-public/bio.c:78-91 | recycling a clean unused buffer changes no contents |
| BufferCache.Replaced | (3-1)OperatingSystem/xv6-public/bio.c:96-116 | a change to one buffer is a change to its block alone |
| WriteAheadLog.LoggedAt | (3-1)OperatingSystem/xv6-public/log.c:176-188 | copying to the log changes log blocks only and puts each changed block into its place |
| WriteAheadLog.InstalledAt | (3-1)OperatingSystem/xv6-public/log.c:70-82 | installing gives each logged block what the log holds for it and changes no other |
| WriteAheadLog.CommitPoint | (3-1)OperatingSystem/xv6-public/log.c:102-113 | before the header is written the disk recovers to the old state, after it to the new one |
| WriteAheadLog.MarksSet | (3-1)OperatingSystem/xv6-public/log.c:191-200 | the block writes of a commit: the log blocks still recover to the old state, the header and everything after it to the new one |
| WriteAheadLog.LoggingKeeps | (3-1)OperatingSystem/xv6-public/log.c:176-188 | a crash while the log is written recovers to the old state |
| WriteAheadLog.InstallKeeps | (3-1)OperatingSystem/xv6-public/log.c:70-82 | a crash after any number of installed blocks recovers to the new state |
| WriteAheadLog.InstallCompletes | (3-1)OperatingSystem/xv6-public/log.c:116-122 | with everything installed, erasing the header loses nothing |
| WriteAheadLog.Log.WriteLog | (3-1)OperatingSystem/xv6-public/log.c:176-188 | the changed blocks are copied to the log, and every disk image on the way recovers to a committed state; it succeeds exactly if there is a buffer besides those of the changed blocks |
| WriteAheadLog.Log.InstallTrans | (3-1)OperatingSystem/xv6-public/log.c:70-82 | the logged blocks are installed, and every disk image on the way recovers to the same committed state; it succeeds exactly with two buffers at boot, and with one besides those of the group in a commit |
| WriteAheadLog.Log.Commit | (3-1)OperatingSystem/xv6-public/log.c:191-200 | a commit adds exactly the state of the cache to the committed states; of its block writes as many as the group has blocks come before the new state, all others after it; it panics exactly if the blocks of the group take all buffers, and then nothing has been committed |
| WriteAheadLog.Log.BeginOp | (3-1)OperatingSystem/xv6-public/log.c:126-141 | an operation is admitted exactly if ten more blocks for it and for every operation in progress stay within 30 |
| WriteAheadLog.Log.EndOp | (3-1)OperatingSystem/xv6-public/log.c:146-172 | the last operation commits the group, the others change nothing; when the commit returns is said exactly |
| WriteAheadLog.Log.LogWrite | (3-1)OperatingSystem/xv6-public/log.c:212-231 | a block is registered once (absorption), stays dirty and so in the cache, and the disk is not touched; it panics exactly if the group is too big, no operation is open, or a new block finds all buffers taken |
| WriteAheadLog.Log.RecoverFromLog | (3-1)OperatingSystem/xv6-public/log.c:116-122 | recovery, cut short after any block write or not, ends in the state that the disk recovered to; it returns exactly with one buffer for an empty log and two otherwise |
| WriteAheadLog.PowerOff | (3-1)OperatingSystem/xv6-public/log.c:68-122 | after any number of the block writes of a call the disk recovers to a state committed before the call or by it |
| WriteAheadLog.Computer.Perform | (3-1)OperatingSystem/xv6-public/log.c:126-231 | one call with or without a crash inside it moves the books as `Moves` says; without a crash it returns exactly if it does not panic, and a panic commits nothing; a crash inside the last `end_op` commits the group exactly if more blocks have been written than the group has |
| WriteAheadLog.Computer.Start | (3-1)OperatingSystem/xv6-public/log.c:54-66 | a boot loses what was not committed and nothing else, even if it crashes itself; with two buffers it succeeds |
| WriteAheadLog.EnoughBuffers | (3-1)OperatingSystem/xv6-public/log.c:212-231 | with as many buffers as the log has blocks no call panics for want of one |
| WriteAheadLog.PanicsIffFull | (3-1)OperatingSystem/xv6-public/log.c:126-231 | the promise behind the admission test: with a log and a cache of more than 30 blocks, over any run of operations that write at most ten blocks each, a call panics exactly if it writes when 30 blocks are changed; it is then at least the eleventh write of its operation, to a block that the operation has written before |
| WriteAheadLog.FullRun | (3-1)OperatingSystem/xv6-public/log.c:212-231 | a run of three operations of ten blocks each in which this happens: the room is tested before the block is looked for |
| WriteAheadLog.FittingNext | (3-1)OperatingSystem/xv6-public/log.c:126-231 | one event keeps the changed blocks, and those that open operations may still write, within 30 |
| WriteAheadLog.CanLog | (3-1)OperatingSystem/xv6-public/log.c:176-188 | copying to the log finds its buffers at every step exactly if there is one more than there are changed blocks |
| WriteAheadLog.CanInstall | (3-1)OperatingSystem/xv6-public/log.c:70-82 | installing finds its buffers at every step if it does at the first, and there exactly with as many as `InstallNeeds` |
| WriteAheadLog.ChainMeaning | (3-1)OperatingSystem/xv6-public/log.c:191-200 | the last committed state is the first one with the changes of all committed groups applied in order |
| WriteAheadLog.CommittedForever | (3-1)OperatingSystem/xv6-public/log.c:68-231 | no later event, and so no crash, undoes a commit |
| WriteAheadLog.Run | (3-1)OperatingSystem/xv6-public/log.c:68-231 | crash atomicity: over any run of calls, crashes after any block write (during recovery too, repeatedly) and reboots, recovery yields exactly the changes of whole groups in commit order, among them every group whose commit returned |
| InodeBlocks.FileSystem.Balloc | (3-1)OperatingSystem/xv6-public/fs.c:57-78 | the first free block is taken and zeroed; it fails exactly if no block is free |
| InodeBlocks.FileSystem.Bfree | (3-1)OperatingSystem/xv6-public/fs.c:82-96 | freeing succeeds exactly if the block is in use |
| InodeBlocks.FileSystem.Bmap | (3-1)OperatingSystem/xv6-public/fs.c:355-409 | the block of a file offset over direct, indirect and double-indirect ranges; missing blocks are allocated on the way, no file shows a difference, and a mapped block changes nothing; within the range it panics exactly if fewer blocks are free than are missing on the way |
| InodeBlocks.SlotOfInjective | (3-1)OperatingSystem/xv6-public/fs.c:355-409 | different blocks of files are named by different slots |
| InodeBlocks.GetAfterAlloc | (3-1)OperatingSystem/xv6-public/fs.c:355-409 | putting a fresh zeroed block into an empty slot changes that slot and no other, on any level |
| InodeBlocks.OwnedAfterAlloc | (3-1)OperatingSystem/xv6-public/fs.c:57-78 | after an allocation every used data block still has exactly one owner |
| InodeBlocks.GrownByAlloc | (3-1)OperatingSystem/xv6-public/fs.c:355-409 | an allocation shows in no file |
| InodeBlocks.ByteAfterWrite | (3-1)OperatingSystem/xv6-public/fs.c:521-543 | bytes written into a data block change the file at that place and no other file |
| InodeBlocks.FileSystem.Readi | (3-1)OperatingSystem/xv6-public/fs.c:486-516 | reading is the slice of the file as a byte sequence, cut at its size; the error return comes exactly for an offset beyond the size or a 32-bit overflow; nothing is allocated |
| InodeBlocks.FileSystem.Writei | (3-1)OperatingSystem/xv6-public/fs.c:521-550 | writing is the splice of the byte sequence, all other files keep their contents; the error cases change nothing; it succeeds exactly if as many blocks are free as the range lacks, data and listing blocks on all levels, and takes exactly as many |
| InodeBlocks.FilledThen | (3-1)OperatingSystem/xv6-public/fs.c:355-409 | what two allocations take is what was missing for both together |
| InodeBlocks.TooFew | (3-1)OperatingSystem/xv6-public/fs.c:355-409 | if too few blocks are left on the way there were too few from the start |
| InodeBlocks.TouchedThen | (3-1)OperatingSystem/xv6-public/fs.c:535-537 | the blocks that a write touches are those on the way to the block of each step |
| InodeBlocks.FileSpliced | (3-1)OperatingSystem/xv6-public/fs.c:545-548 | with the size adjusted, the file holds the old bytes with the new ones over them |
| InodeBlocks.FreedOne | (3-1)OperatingSystem/xv6-public/fs.c:417-470 | a block whose turn comes is still in use, so the panic about freeing a free block cannot come |
| InodeBlocks.TruncateConsistent | (3-1)OperatingSystem/xv6-public/fs.c:417-470 | after truncation the file is empty, its blocks are free, other files are as before and every used block has one owner |
| InodeBlocks.FileSystem.FreeDirect | (3-1)OperatingSystem/xv6-public/fs.c:423-428 | the direct blocks are freed and their entries cleared |
| InodeBlocks.FileSystem.FreeIndirect | (3-1)OperatingSystem/xv6-public/fs.c:431-441 | the blocks behind the indirect block are freed, then the block itself |
| InodeBlocks.FileSystem.FreeDouble | (3-1)OperatingSystem/xv6-public/fs.c:444-467 | the blocks behind the double-indirect block are freed level by level |
| InodeBlocks.FileSystem.Itrunc | (3-1)OperatingSystem/xv6-public/fs.c:417-470 | exactly the bits of the blocks that the file owned are cleared, on all levels |
| InodeSpace.FreshConsistent | (3-1)OperatingSystem/xv6-public/mkfs.c:94-115 | a disk with empty files and only the metadata blocks in use is consistent, and its files have no blocks that their sizes do not ask for |
| InodeSpace.Format | (3-1)OperatingSystem/xv6-public/mkfs.c:94-115 | such a disk can be made |
| InodeSpace.PathsCount | (3-1)OperatingSystem/xv6-public/fs.c:355-409 | a file of d data blocks takes d blocks, one more for the indirect block, and one and one for every 128 more behind the double-indirect block |
| InodeSpace.SpaceLeft | (3-1)OperatingSystem/xv6-public/fs.c:57-96 | the free blocks and the blocks that the files take by their sizes are all data blocks of the disk: none is lost |
| InodeSpace.NeededIs | (3-1)OperatingSystem/xv6-public/fs.c:535-548 | the blocks that a write takes are those that the file needs more by its size |
| InodeSpace.TightWritten | (3-1)OperatingSystem/xv6-public/fs.c:535-548 | a write leaves no block allocated that the size does not ask for |
| InodeSpace.ShortIff | (3-1)OperatingSystem/xv6-public/fs.c:57-78 | too few blocks are free for an operation exactly if the files would take more than the disk has |
| InodeSpace.Perform | (3-1)OperatingSystem/xv6-public/fs.c:417-550 | each operation on the blocks does to the files, and answers, what it does on byte sequences; it panics exactly if too few blocks are free, which is exactly if the files would take more blocks, by their sizes, than the disk has |
| InodeSpace.Run | (3-1)OperatingSystem/xv6-public/fs.c:57-550 | from any consistent file system on, any sequence of writes, reads and truncations gives the answers of byte sequences, and every used block has one owner; it stops exactly at the first operation after which the files would take more blocks, by their sizes, than the disk has |
| Scheduler.Machine.InsertIntoPQueue | (3-1)OperatingSystem/xv6-public/proc.c:593-606 | the process goes into the first empty slot |
| Scheduler.Machine.DeleteFromQueue | (3-1)OperatingSystem/xv6-public/proc.c:545-556 | the slot of the process is emptied |
| Scheduler.Machine.GetHighPriorityProcForLevel | (3-1)OperatingSystem/xv6-public/proc.c:481-528 | the search of a level, its counters and its branch for used-up slices |
| Scheduler.Machine.GetHighestPriorityProc | (3-1)OperatingSystem/xv6-public/proc.c:531-542 | the search of all levels, best first |
| Scheduler.Machine.BoostPriority | (3-1)OperatingSystem/xv6-public/proc.c:572-590 | every waiting process that has run goes to the highest level with new slices |
| Scheduler.Machine.HandlePriorityLevel | (3-1)OperatingSystem/xv6-public/proc.c:766-801 | one tick is counted for the running process; at the hundredth every other process that waits and has run is on the highest level with slices 0, in its queue, and the count starts again, otherwise no other process changes; with right queues, the running process is one level lower, with a new slice, exactly if it has used up its slice on a higher level, and the queues stay right |
| Scheduler.Machine.ScheduleRound | (3-1)OperatingSystem/xv6-public/proc.c:630-737 | one round of the scheduler in either mode: who gets the processor, with what mark, and what the queues pay for an empty turn; it keeps the queues right exactly if it is not astray |
| Scheduler.Machine.SetCpuShare | (3-1)OperatingSystem/xv6-public/proc.c:815-845 | a share of n percent is granted exactly if the shares granted and it add up to at most 80, and then the stride times n is 10000; all pass values start again either way |
| Scheduler.Machine.Fork | (3-1)OperatingSystem/xv6-public/proc.c:219-273 | a child enters the queue of the highest level, runnable, with new slices and without a share; without an entry or memory nothing runs; nobody else changes and the queues stay right |
| Scheduler.Machine.Exit | (3-1)OperatingSystem/xv6-public/proc.c:279-393 | every sleeper on the parent as channel is runnable, and so is one on the first process if it was handed a child that has ended; children belong to the first process; the process is a zombie in no queue; nothing else changes and the queues stay right |
| Scheduler.Machine.Wait | (3-1)OperatingSystem/xv6-public/proc.c:398-469 | the first ended child is released and its entry is unused again; else no children or a kill return at once without a change; else the process sleeps on itself and the turn is paid for |
| Scheduler.Machine.Sleep | (3-1)OperatingSystem/xv6-public/proc.c:1065-1101 | a sleeping process is in no queue, and the queues stay right for all others |
| Scheduler.Machine.Wakeup1 | (3-1)OperatingSystem/xv6-public/proc.c:1107-1118 | exactly the sleepers on the channel become runnable and lose their shares, and enter their queues |
| Scheduler.Machine.Kill | (3-1)OperatingSystem/xv6-public/proc.c:1133-1155 | the first process with the number is marked and, if asleep, runnable without a share and in its queue; without one nothing changes |
| SchedulerEffects.TickedEffect | (3-1)OperatingSystem/xv6-public/proc.c:766-801 | what a tick does to all processes but the running one: a boost at the count 100 and nothing otherwise |
| SchedulerEffects.InterruptedEffect | (3-1)OperatingSystem/xv6-public/trap.c:114-124 | a clock interrupt counts only while the queues have the processor, and charges the process or the queues for the turn |
| SchedulerEffects.DecidedEffect | (3-1)OperatingSystem/xv6-public/proc.c:630-737 | a round: the queues give the processor to a waiting process of the best level, behind the least pass value they go first, the mode with shares ends when no stride adds up, and 10000 is the stride of the queues times the percentage that is left |
| SchedulerEffects.YieldedEffect | (3-1)OperatingSystem/xv6-public/proc.c:804-811 | giving up the processor costs a process chosen by pass value its stride, and otherwise the queues theirs |
| SchedulerEffects.ReparentedEffect | (3-1)OperatingSystem/xv6-public/proc.c:367-379 | the children change their parent, and sleepers on the first process wake exactly if one of the children has ended |
| SchedulerEffects.ExitedEffect | (3-1)OperatingSystem/xv6-public/proc.c:353-387 | the state, parent and share of every process after an exit |
| SchedulerEffects.WaitedEffect | (3-1)OperatingSystem/xv6-public/proc.c:398-469 | the result of a wait, and every process after it |
| SchedulerEffects.KilledEffect | (3-1)OperatingSystem/xv6-public/proc.c:1133-1155 | every process after a kill |
| SchedulerEffects.ForkedEffect | (3-1)OperatingSystem/xv6-public/proc.c:219-273 | every process after a fork |
| SchedulerEffects.ShareSetEffect | (3-1)OperatingSystem/xv6-public/proc.c:815-845 | every process after a request for a share |
| SchedulerEffects.NobodyEverMissed | (3-1)OperatingSystem/xv6-public/proc.c:279-469 | no lost wakeup: in all states of a run in which no other sleep uses a process as its channel, no process sleeps in a wait for its children while one of them has ended |
| SchedulerQueues.InsertKeeps | (3-1)OperatingSystem/xv6-public/proc.c:593-606 | insertion never finds a full queue |
| SchedulerQueues.SliceAt | (3-1)OperatingSystem/xv6-public/proc.c:513-518 | no queued process has used up its slice, so the branch for slice 20 is never taken |
| SchedulerQueues.SelectRight | (3-1)OperatingSystem/xv6-public/proc.c:531-542 | the queues give the processor to a runnable process without share of the best level that has one, and to none exactly if there is none |
| SchedulerQueues.NextKeepsQueues | (3-1)OperatingSystem/xv6-public/proc.c:481-1155 | one event keeps the queues right exactly if it is not a round of the scheduler that is astray |
| SchedulerQueues.DecidedIff | (3-1)OperatingSystem/xv6-public/proc.c:635-735 | a round keeps the queues right unless all waiting pass values are at 10000000 or more, it goes by pass values, and process 0 is not runnable: then and only then it upsets them |
| SchedulerQueues.DispatchedAstray | (3-1)OperatingSystem/xv6-public/proc.c:686-692 | a process that runs without having waited is in no queue, so the queues are not right |
| SchedulerQueues.TickedKeeps | (3-1)OperatingSystem/xv6-public/proc.c:766-801 | a tick keeps the queues right and moves the running process down exactly if its slice is used up |
| SchedulerQueues.SleptKeeps | (3-1)OperatingSystem/xv6-public/proc.c:1065-1101 | going to sleep keeps the queues right and leaves the process in none |
| SchedulerQueues.ExitedKeeps | (3-1)OperatingSystem/xv6-public/proc.c:279-393 | ending keeps the queues right and leaves no slot and no children behind |
| SchedulerQueues.AlwaysQueued | (3-1)OperatingSystem/xv6-public/proc.c:481-1155 | in all states of a run a process is in exactly one slot, at its own level, if and only if it is runnable or running, with every slice counter below 5, 10 or 20: this holds exactly if no round of the run is astray |
| SchedulerShares.ScanShares | (3-1)OperatingSystem/xv6-public/proc.c:645-661 | if a stride process waits, the strides found add up to more than zero; the shares found are at most all shares |
| SchedulerShares.ScanSum | (3-1)OperatingSystem/xv6-public/proc.c:645-661 | the shares that the scan computes back from the strides are exactly those of the processes that wait |
| SchedulerShares.TotalMeans | (3-1)OperatingSystem/xv6-public/proc.c:815-845 | the total that a request is tested against counts the share of each stride process once and no other |
| SchedulerShares.ShareSetIff | (3-1)OperatingSystem/xv6-public/proc.c:815-845 | a request for at least one percent, granted or not, keeps shares and pass values right; a smaller one is granted and leaves a share below one percent, which is not right by definition |
| SchedulerShares.DecidedFairIff | (3-1)OperatingSystem/xv6-public/proc.c:635-735 | a round that is not astray keeps pass values together exactly if it does not fall back on a stride process 0 that is ahead of one that waits |
| SchedulerShares.PassTurnIff | (3-1)OperatingSystem/xv6-public/proc.c:686-695 | handing out the processor for a pass value is fair exactly if no process that waits has a smaller one |
| SchedulerShares.NextKeepsFair | (3-1)OperatingSystem/xv6-public/proc.c:635-845 | one event keeps every share at one percent or more, shares at 80 in all and pass values together exactly if it is neither such a round nor a request for less than one percent |
| SchedulerShares.AlwaysFair | (3-1)OperatingSystem/xv6-public/proc.c:635-735 | in all states of a run every share is at least one percent and shares sum to at most 80, pass of p is at most pass of q plus the stride of p for any two contending stride processes, the queues are at most 500 ahead, whoever runs was not ahead when it was chosen, and the queues are right: this holds exactly if no round is astray or unfair and less than one percent is never asked for |
| SchedulerShares.FairIffRounds | (3-1)OperatingSystem/xv6-public/proc.c:635-735 | in runs with requests for at least one percent it holds exactly if no round is astray or unfair |
| SchedulerShares.RightIffBelowLimit | (3-1)OperatingSystem/xv6-public/proc.c:670-695 | a turn by pass values goes to a waiting process with the least pass value exactly if some waiting pass value is below 10000000, or process 0, which the scan falls back on, happens to be one |
| SchedulerLimit.LimitReached | (3-1)OperatingSystem/xv6-public/proc.c:637-692 | a run from boot in which two processes with one percent have a thousand turns each; all is right up to there, process 0 then waits for its child, and the next round runs it in its sleep, in no queue |
| SchedulerLimit.UnfairReached | (3-1)OperatingSystem/xv6-public/proc.c:670-695 | the same run, with process 0 yielding instead: all is right up to there, and the next round gives it the processor although its child is behind |
| Scheduler.Run | (3-1)OperatingSystem/xv6-public/proc.c:481-1155 | any run of the in-place kernel is the run of the model; the queues, and the queues with the pass values, are right all along exactly if no round is astray, and if the run is steady |
| Dbscan.DBSCAN.RangeQuery | (4-1)DataScience/hw3(dbscan)/DBSCAN.java:254-261 | the neighbourhood is exactly the set of points within Eps |
| Dbscan.JustEnough | (4-1)DataScience/hw3(dbscan)/DBSCAN.java:93-101 | the number of points at which a point becomes a core point |
| Dbscan.DBSCAN.Expand | (4-1)DataScience/hw3(dbscan)/DBSCAN.java:107-121 | the queue loop ends, and around every core point of the cluster everything is labelled |
| Dbscan.DBSCAN.Cluster | (4-1)DataScience/hw3(dbscan)/DBSCAN.java:87-123 | every point is labelled; two core points share a label exactly if a chain of core points within Eps joins them; a point is noise exactly if it is not core and no core point is near; a border point has the label of a core neighbour |
| Dbscan.SameClusterIff | (4-1)DataScience/hw3(dbscan)/DBSCAN.java:87-123 | two core points share a label exactly if a chain joins them |
| Dbscan.Finished | (4-1)DataScience/hw3(dbscan)/DBSCAN.java:87-123 | the loop invariant with all points labelled is the clustering promised |
| Dbscan.NewCluster | (4-1)DataScience/hw3(dbscan)/DBSCAN.java:101-106 | an unlabelled core point starts a cluster that no labelled core point belongs to |
| Dbscan.CoreJoins | (4-1)DataScience/hw3(dbscan)/DBSCAN.java:115-120 | a core point taken from the queue joins the cluster and brings its neighbours in |
| Dbscan.BorderJoins | (4-1)DataScience/hw3(dbscan)/DBSCAN.java:111-115 | a border point, noise so far or not, joins the cluster |
| TopologicalSort.TopologicalSort.Topological | (2-1)DataStructure/Topological_Sort.java:14-54 | on the graph that the scan sees: null exactly if a cycle can be reached, else the reversed output lists exactly the reachable nodes, once each, every edge going forward; the stack is then empty |
| TopologicalSort.SearchComplete | (2-1)DataStructure/Topological_Sort.java:14-54 | an ordered list with the source has everything reachable, and no cycle is reachable |
| TopologicalSort.BackEdge | (2-1)DataStructure/Topological_Sort.java:31-38 | an edge back into the stack closes a reachable cycle |
| TopologicalSort.Popped | (2-1)DataStructure/Topological_Sort.java:49-51 | finishing a node keeps the search in order, and the column to go on with is the node plus one |
| TopologicalSort.RightIffCovered | (2-1)DataStructure/Topological_Sort.java:22-52 | the answer is right for the whole graph exactly if a cycle is found or every edge from the source to a lower node leads to a node reached anyway |
| TopologicalSort.SourceOne | (2-1)DataStructure/Topological_Sort.java:22-24 | for source 1 no edge is skipped, which by `RightIffCovered` makes the answer right for the whole graph |
| TopologicalSort.LowerNodeMissed | (2-1)DataStructure/Topological_Sort.java:22-24 | an input on which it is not: source 2 with an edge to node 1 |
| AStar.HConsistent | (4-1)AI/assignment1/assignment1_2013011800_ASS.java:181-185 | one step changes the heuristic by at most one |
| AStar.HIsNearest | (4-1)AI/assignment1/assignment1_2013011800_ASS.java:181-185 | the heuristic is the number of steps to the nearest goal if there were no walls, or 250000 |
| AStar.PoppedLeast | (4-1)AI/assignment1/assignment1_2013011800_ASS.java:62-65 | a cell is marked as visited only when it was reached by a shortest walk |
| AStar.GoalLeast | (4-1)AI/assignment1/assignment1_2013011800_ASS.java:74-78 | recognising a goal when it is generated still gives a shortest way |
| AStar.TurnKeeps | (4-1)AI/assignment1/assignment1_2013011800_ASS.java:66-80 | a turn keeps every shortest walk in sight, repeated entries in the queue included |
| AStar.NothingLeft | (4-1)AI/assignment1/assignment1_2013011800_ASS.java:62 | when the queue is empty no goal can be reached |
| AStar.ASSearch.Search | (4-1)AI/assignment1/assignment1_2013011800_ASS.java:53-82 | the search ends, finds a goal exactly if one can be reached, and the way to it is a shortest one, whichever of several least nodes the queue gives |
| AStar.ASSearch.DrawPath | (4-1)AI/assignment1/assignment1_2013011800_ASS.java:88-96 | the way between start and goal is marked and nothing else |
| AStar.ASSearch.Work | (4-1)AI/assignment1/assignment1_2013011800_ASS.java:88-107 | the length reported is the number of steps to the nearest goal minus one |
| Mazes.CountPath | (4-1)AI/assignment1/assignment1_2013011800_ASS.java:98-107 | the number of marked cells |
| Mazes.AdjacentIff | (4-1)AI/assignment1/assignment1_2013011800_ASS.java:66-80 | the cells tried from a cell are the four beside it |
| Mazes.ShortestIsSimple | (4-1)AI/assignment1/assignment1_2013011800_ASS.java:88-96 | a shortest walk never comes back to a cell |
| Iddfs.IDS.DLS | (4-1)AI/assignment1/assignment1_2013011800_IDS.java:52-74 | the search with a limit finds a goal exactly if some way without repetition shorter than the limit ends next to one; a way found later may replace the result |
| Iddfs.LeadsIff | (4-1)AI/assignment1/assignment1_2013011800_IDS.java:43-50 | a limit suffices exactly if a goal can be reached in so many steps |
| Iddfs.FirstIsShortest | (4-1)AI/assignment1/assignment1_2013011800_IDS.java:43-50 | whatever the first successful limit found last is a shortest way |
| Iddfs.IDS.IDDFS | (4-1)AI/assignment1/assignment1_2013011800_IDS.java:43-50 | a goal is found exactly if one is fewer than 250000 steps away, and the result is a shortest way |
| Iddfs.BothSearches | (4-1)AI/assignment1/assignment1_2013011800_IDS.java:43-99 | both programs report the same length when the second finds a goal |
| Apriori.Apriori.GetSupport | (4-1)DataScience/hw1(apriori)/main.cpp:259-272 | counting equal pairs gives the part of the transactions that contain the itemset, in percent |
| AprioriModel.SupportMeans | (4-1)DataScience/hw1(apriori)/main.cpp:259-272 | support times the number of transactions is 100 times the number of those that have all the items; it is 100 exactly if all have them |
| AprioriModel.FrequentMeans | (4-1)DataScience/hw1(apriori)/main.cpp:247-272 | an itemset is frequent exactly if 100 times the transactions that have it are at least the threshold times all |
| AprioriModel.RuleMeans | (4-1)DataScience/hw1(apriori)/main.cpp:163-174 | the support and the confidence of a rule as numbers of transactions: of all, and of those with the left side |
| AprioriModel.SupportFalls | (4-1)DataScience/hw1(apriori)/main.cpp:259-272 | a subset has at least the support of the set |
| AprioriModel.Joined | (4-1)DataScience/hw1(apriori)/main.cpp:208-232 | every itemset is the join of the two that lack one of its last two items |
| Apriori.FrequentJoined | (4-1)DataScience/hw1(apriori)/main.cpp:194-245 | joining and pruning loses no frequent itemset |
| Apriori.Apriori.JoiningAndPruning | (4-1)DataScience/hw1(apriori)/main.cpp:194-245 | the candidates are right and contain every frequent itemset of the next size |
| Apriori.Apriori.GenerateL | (4-1)DataScience/hw1(apriori)/main.cpp:247-257 | the frequent candidates are exactly the frequent itemsets of this size, each listed once |
| Apriori.Apriori.Mine | (4-1)DataScience/hw1(apriori)/main.cpp:87-93 | the loop ends; for every size the list holds exactly the frequent itemsets, and there are none of greater size |
| Apriori.Apriori.SeekNextLength | (4-1)DataScience/hw1(apriori)/main.cpp:135-145 | the union is looked up in the list of its size exactly if it is frequent |
| AprioriModel.UnionIncreasing | (4-1)DataScience/hw1(apriori)/main.cpp:135-145 | overlapping itemsets are never found, since their sorted items repeat one |
| Apriori.Apriori.RulePossible | (4-1)DataScience/hw1(apriori)/main.cpp:95-123 | the two different tests for equal and for unequal sizes mean the same |
| Apriori.Apriori.GenerateAssociationRules | (4-1)DataScience/hw1(apriori)/main.cpp:163-174 | support and confidence of both directions |
| Apriori.Apriori.RulesOfSizes | (4-1)DataScience/hw1(apriori)/main.cpp:95-123 | each pair of itemsets of these sizes gives its rules once |
| Apriori.Apriori.RunJob | (4-1)DataScience/hw1(apriori)/main.cpp:87-125 | the rules are exactly the pairs of disjoint itemsets with a frequent union, each once, with the right support and confidence |
| Allocator.Heap.FindGap | (3-1)OperatingSystem/xv6-public/umalloc.c:31-33 | the walk around the list ends at the one gap into which the block belongs |
| Allocator.Heap.Free | (3-1)OperatingSystem/xv6-public/umalloc.c:25-45 | the block is back on the list, joined with the neighbours it touches; blocks handed out keep place and size |
| Allocator.After | (3-1)OperatingSystem/xv6-public/umalloc.c:34-43 | whichever neighbours the block touches, the list stays in address order without touching blocks and the tiling is kept |
| Allocator.Absorbs | (3-1)OperatingSystem/xv6-public/umalloc.c:34-43 | joining adjacent blocks keeps every unit of memory in exactly one block |
| Allocator.Splits | (3-1)OperatingSystem/xv6-public/umalloc.c:79-82 | cutting off the tail of a block keeps every unit in exactly one block |
| Allocator.Heap.Morecore | (3-1)OperatingSystem/xv6-public/umalloc.c:47-61 | new memory becomes one free block of the units asked for but at least 4096; the size below the kernel is the exact condition for a block that has memory behind it, free pages and room below the kernel that for success |
| Allocator.Heap.Malloc | (3-1)OperatingSystem/xv6-public/umalloc.c:64-90 | the walk ends; if a free block is large enough, the end of the first such block after the last place of search is handed out; the block returned was handed to nobody, has the size computed, and no other block handed out changes; it is large enough exactly for requests up to 2^31 - 16 bytes; a null pointer comes exactly if no free block is large enough and the process cannot grow; beyond that the system is asked for a size that breaks the heap exactly up to 2^32 - 8 bytes |
| Allocator.FitsIff | (3-1)OperatingSystem/xv6-public/umalloc.c:69 | the units computed in 32 bits are enough, and not more than there can be, exactly for requests up to 2^31 - 16 bytes; they are too many exactly up to 2^32 - 8, and too few beyond |
| Allocator.BackedIff | (3-1)OperatingSystem/xv6-public/umalloc.c:52-56 | the answer of `sbrk` to the wrapped, signed size means what malloc takes it for exactly if the size lies below the kernel |
| Allocator.NothingBehind | (3-1)OperatingSystem/xv6-public/umalloc.c:54 | a request of 2^32 - 8 bytes: `sbrk(0)` succeeds, with no memory behind the block |
| Allocator.LessThanBefore | (3-1)OperatingSystem/xv6-public/sysproc.c:133-148 | a request of 2^32 - 16 bytes: `sbrk(-8)` succeeds, and the process has lost memory |
| Allocator.OneRound | (3-1)OperatingSystem/xv6-public/umalloc.c:86-88 | when the walk is back where it started no block is large enough |
| Allocator.Run | (3-1)OperatingSystem/xv6-public/umalloc.c:24-90 | after any sequence of calls, up to the first that asks for between 2^31 - 15 and 2^32 - 8 bytes, the free list is one address-ordered cycle without touching blocks, and free and live blocks tile the memory obtained |
| LockCoupling.StepTree | (3-2)SW_Engineering/BinarySearchTree_finegrainedlocking/Locking/src/BST_FGL_REL.java:70-96 | one step of any thread keeps the search tree, and every thread under way stands where its key belongs |
| LockCoupling.StepLocks | (3-2)SW_Engineering/BinarySearchTree_finegrainedlocking/Locking/src/BST_FGL_REL.java:70-96 | one step keeps each lock with the thread that stands there |
| LockCoupling.StepKeys | (3-2)SW_Engineering/BinarySearchTree_finegrainedlocking/Locking/src/BST_FGL_REL.java:70-96 | one step loses no key |
| LockCoupling.AllInterleavings | (3-2)SW_Engineering/BinarySearchTree_finegrainedlocking/Locking/src/BST_FGL_REL.java:36-96 | in every interleaving the tree stays a search tree; when all threads are done its keys are the first ones and all inserted ones, and no lock is held |
| LockCoupling.Progress | (3-2)SW_Engineering/BinarySearchTree_finegrainedlocking/Locking/src/BST_FGL_REL.java:36-96 | while some thread is not done, some thread need not wait |
| LockCoupling.StepLowers | (3-2)SW_Engineering/BinarySearchTree_finegrainedlocking/Locking/src/BST_FGL_REL.java:70-96 | every step of a thread that need not wait brings the end nearer, by a measure of all threads |
| LockCoupling.StepsBounded | (3-2)SW_Engineering/BinarySearchTree_finegrainedlocking/Locking/src/BST_FGL_REL.java:36-96 | no schedule, however long, holds more such steps than the measure of its first state, so no insertion goes on for ever |
| LockCoupling.AllEnd | (3-2)SW_Engineering/BinarySearchTree_finegrainedlocking/Locking/src/BST_FGL_REL.java:36-96 | from every state some schedule brings every insertion to its end |
| LockCoupling.StuckIsDone | (3-2)SW_Engineering/BinarySearchTree_finegrainedlocking/Locking/src/BST_FGL_REL.java:36-96 | where no thread can go on, all insertions have ended |
| LockCoupling.HoldsParentAndChild | (3-2)SW_Engineering/BinarySearchTree_finegrainedlocking/Locking/src/BST_FGL_REL.java:75-77 | a thread holds at most the locks of a node and its parent |
| TreeDelete.HelperDeletes | (3-2)SW_Engineering/BinarySearchTree_finegrainedlocking/Locking/src/BST_FGL_REL.java:285-338 | exactly the key is gone, the order is kept, one node less if the key was there and the same tree if not |
| TreeDelete.HelperReleases | (3-2)SW_Engineering/BinarySearchTree_finegrainedlocking/Locking/src/BST_FGL_REL.java:285-338 | every lock taken on the way is released, none is taken twice or released without being held |
| TreeDelete.MinReleases | (3-2)SW_Engineering/BinarySearchTree_finegrainedlocking/Locking/src/BST_FGL_REL.java:135-149 | finding the least key hands the locks down and lets the last one go |
| TreeDelete.HelperCouples | (3-2)SW_Engineering/BinarySearchTree_finegrainedlocking/Locking/src/BST_FGL_REL.java:285-338 | the locks of a deletion are those of the way to the key, each taken before the one above is let go; for a node with two children the way goes on to the least greater key, and that way is gone down once more |
| TreeDelete.DeleteRight | (3-2)SW_Engineering/BinarySearchTree_finegrainedlocking/Locking/src/BST_FGL_REL.java:242-250 | deletion as a whole: the key, the order and the locks |
| GrepMatch.Match | (3-1)OperatingSystem/xv6-public/grep.c:73-82 | the result is true exactly if some part of the text, anchored as ^ and $ demand, is in the language of the pattern |
| GrepMatch.MatchHere | (3-1)OperatingSystem/xv6-public/grep.c:85-96 | the pattern matches at the beginning of the text exactly if some start of it is in the language |
| GrepMatch.MatchStar | (3-1)OperatingSystem/xv6-public/grep.c:99-106 | some number of characters that fit, then the rest of the pattern |
| GrepMatch.HereOne | (3-1)OperatingSystem/xv6-public/grep.c:93-94 | a plain item takes one character that fits it |
| GrepMatch.HereStar | (3-1)OperatingSystem/xv6-public/grep.c:89-90 | a starred item takes any number of characters that fit it |
| Pipe.Pipe.WriteTurn | (3-1)OperatingSystem/xv6-public/pipe.c:79-98 | the next bytes of the write go in order until it is done or the pipe is full; readers that sleep afterwards sleep on an empty pipe, except exactly when the writer will not wait, has more than 512 bytes left, and readers slept before the turn |
| Pipe.Pipe.ReadTurn | (3-1)OperatingSystem/xv6-public/pipe.c:101-121 | the oldest bytes come out, as many as are there and asked for |
| Pipe.Pipe.Put | (3-1)OperatingSystem/xv6-public/pipe.c:93 | the byte is accepted as the last; the counter wraps at 2^32 |
| Pipe.Pipe.Take | (3-1)OperatingSystem/xv6-public/pipe.c:116 | the byte delivered is the oldest; the counter wraps at 2^32 |
| Pipe.Pipe.Close | (3-1)OperatingSystem/xv6-public/pipe.c:60-75 | closing an end wakes the sleepers at the other |
| Pipe.LosesIff | (3-1)OperatingSystem/xv6-public/pipe.c:79-121 | an event loses a wakeup exactly if it is the turn of a writer that is killed or has no reading end, with more than 512 bytes left, while a reader sleeps |
| Pipe.NoLostWakeupIff | (3-1)OperatingSystem/xv6-public/pipe.c:79-121 | in a whole run readers sleep only on an empty pipe that is open for writing exactly if no such turn comes |
| Pipe.FullIs512 | (3-1)OperatingSystem/xv6-public/pipe.c:85 | the test on wrapping counters holds exactly if 512 bytes are held |
| Pipe.NoLostWakeup | (3-1)OperatingSystem/xv6-public/pipe.c:79-121 | without kills and with the reading end open, readers sleep only on an empty pipe that is open for writing |
| Pipe.LostWakeup | (3-1)OperatingSystem/xv6-public/pipe.c:86-89 | a run in which a killed writer leaves a reader asleep on a full pipe |
| Pipe.Run | (3-1)OperatingSystem/xv6-public/pipe.c:59-121 | in every interleaving of readers, writers, kills and closes the bytes delivered are a prefix of those accepted, at most 512 are held, and a reader and a writer never sleep at once |

## Left out

- TINY: comments and the trace option of the generator, unknown operators and node kinds, scanning, semantic analysis, and the
  text form of the code file. Integers are unbounded on both sides, and `st_lookup` is a map from names to locations,
  different for different names.
- TinyMachine.Simulator.ReadInstructions: it takes lines that have been read; their text form and its errors are left out.
- TinyParse.Parser.StmtSequence: of a list with a syntax error, which statements survive is not said.
- TinyParse.Parser.Statement: after a syntax error the error flag and the tokens left are those of the code; the partly built
  tree is only known to be missing where the code leaves a null pointer in it or drops a statement.
- Huffman: `minHeapChange` and `minHeapFull`, the fixed-length comparison printed beside the result, the variable `expected`,
  and the second `scanf`, which passes a number where a pointer belongs.
- BufferCache.Cache.Bget: device numbers and sleep locks are left out. Calls on the log come one after another; what is
  interleaved is operations, which may be open at the same time, and crashes, which may come at any block write.
- WriteAheadLog.Log.LogWrite: the bound on the calls of an operation is a condition of `PanicsIffFull`; that each system call
  keeps to it is not shown. The log header is a list of numbers, not bytes. Installing reads each log block after the block it belongs to, the
  code before it; what the cache holds, and whether there is a buffer, is the same.
- InodeSpace.FreshConsistent: the root directory and the files that `mkfs` goes on to write; `Run` starts from any consistent file
  system whose files have no blocks beyond their sizes.
- InodeBlocks: the bits within a bitmap block are a sequence of booleans; device files, the inode table on disk (`iupdate`),
  the log calls around the operations, and directories are left out.
- Scheduler: threads (`thread_create`, `thread_join`, `thread_exit` and the branches for them), more than one processor, the
  `ticks` counters that are only printed, and `fixedshare`, which only threads use. Doubles are real numbers. A kernel entry is
  one step. The process table and the queues are sequences that the methods reassign.
- Pipe: allocation of pipes and freeing one with both ends closed. A turn lasts from getting the lock to returning or falling
  asleep, which the lock makes atomic.
- LockCoupling: a state machine on values with nodes named by their path, which insertion never changes; the locks are
  exclusive. Concurrent deletion, `search` (its second comparison repeats the first) and the read-write-lock variant are left
  out because the code does not meet the natural claim.
- TreeDelete.DeleteRight: a tree value and a list of lock operations stand for the linked nodes; sharing between nodes is not
  captured.
- Mazes: reading and writing files, and the counters of steps. Copies of the maze are values. The start is a cell marked 3 and
  the list of goals is exactly the cells marked 4, as reading the file leaves them.
- Apriori: reading and writing files. Percentages are real numbers. Transactions have no repeated items and are in increasing
  order, as reading sorts them; the threshold is positive. `sort` is insertion sort.
- Allocator: the process has no threads; its other calls of `sbrk` only ask for more memory, in whole headers. What happens after
  a header has been written where there is no memory is not modelled: `Malloc` answers `Unbacked` and the run ends. Reading or
  writing beyond a block handed out is outside the model.
- Dbscan.DBSCAN.Cluster: closeness is a symmetric relation on the points; the distance itself, reading and writing files are
  left out.
- TopologicalSort.TopologicalSort.Topological: it requires an empty stack, since after the answer null the code leaves its
  stack as it is.
- GrepMatch: the buffer handling of `grep` and file reading.
- The scheduler's `printProcTable`, xv6 devices, boot code, page tables and user programs, the UDP exercises, the B+ tree, the
  textbook sorts and searches, and the floating-point learning code.
