# Verified models of the hooking engine, the image rewriter, the XML tree and the shell strings

The project models four parts of the repository and proves what they are for.

**The Detours hooking engine** (`disasm.cpp`, `detours.cpp`, 32-bit x86 build). `Disasm` says what an instruction is
under the opcode tables of `OpcodeTables` and what its relocated copy holds; `InstructionCopier` is the copier object
writing into memory. `InstructionFormat` says the same by opcode ranges and in numerals, and is proved equal.
`Relocation` and `CodeWriter` move the head of a function into a trampoline and back, `FunctionEnds` says where that
stops, `TrampolineRun` runs both. `TrampolineHeap` is the slot allocator. `Transaction` gives every API call as a
function on the engine's state; `DetourEngine.CDetours` is the engine's static state with its loops and in-place
writes, each method proved to refine that function. `Restoration`, `Protection`, `Stamps`, `Threads` and
`Interleaving` prove what whole runs and all interleavings keep: original code, page protections, marked headers,
suspend counts, one owner. `HookedCode` proves that a committed hook leads to the detour it was attached with,
`CallAnswers` what each call answers.

**The image rewriter and its readers** (`image.cpp`, `creatwth.cpp`, `modules.cpp`). `PayloadRecords` and
`PayloadStore` are the payload records and the buffer they live in, `PayloadModule` the writer and reader of payloads
in a process, `PayloadFormat` their bytes, `SectionPayloads` their agreement. `ImportLayout`, `ImageOutput` and
`ImageWriter` count and write the import directory, `SectionWords` says what its words are, `ImagePlacement` says
where it goes in the file, `ImportReader` reads it, `ImportEditor` edits and resets it, `EditAnswers` says what each
answer of a callback does; `ImportRoundTrip`, `ImageRoundTrip` and `ImageCycles` connect them, for one rewriting of an
image and for any number. `Checksum` is the module checksum and its compensating word.

**TinyXML** (`tinyxml.cpp`). `Rings` and `XmlAttributes` are the circular attribute list, `XmlLinks`, `XmlShapes` and
`XmlTree` the document tree, its operations and its clone.

**The SQLite shell** (`shell.c`). `ShellString` is the string printer and the tokens of a line, `ShellLine` the
tokenizer that cuts the line in memory.

Methods that change state are proved against functions of the old state; the lemmas are about those functions. What the
operating system answers (memory, first protection changes, suspensions, readable contexts, unused address space) is a
parameter of the call, and the theorems hold for every answer; calls whose answers the code ignores (the restoring
protection changes, SetThreadContext, ResumeThread) are taken to succeed.

## What the proofs say about the code

Where a promise does not hold, the exact condition under which it does is proved:

- An instruction with an Invalid entry steps over one byte it does not copy, so a moved block holding one does not come
  back on detach (`Relocation.MoveUndoneIff`, `UnmoveBreaks`, `SalcLost`).
- Opcodes of two bytes without operands, cpuid for one, are given a third byte, which is then not looked at as an
  instruction (`InstructionFormat.CpuidTakesOneMore`).
- Attaching a function to itself returns NO_ERROR and queues nothing, and this is the only success that queues nothing
  (`Transaction.SucceedsWithoutHooking`, `SelfDetour`).
- Detaching a pointer that holds an unhooked function takes its code for a trampoline when the byte at offset 23 is 1
  to 23 and the word at offset 28 is the detour's address (`Restoration.DetachKeepsIff`, `DetachTakesCode`).
- The first Attach in a module makes the page of its header executable and writable and stamps it; neither Commit nor
  Abort undoes that. So pages come back if and only if those left open were writable code before
  (`Protection.RunRestoresPages`, `FirstAttachOpens`, `Stamps.StampedOnce`).
- A failure to make the module header writable leaves the target page executable and writable
  (`Protection.HeaderFailureLeaks`).
- The fix-up of threads inside a removed trampoline covers as many bytes as a pointer has, not the trampoline
  (`Threads.CommitMovesThreads`).
- A thread stays suspended as many times as DetourUpdateThread suspended it with no transaction under way
  (`Threads.RunRestoresCounts`, `OutsideForgotten`, `Interleaving.StepsRestoreCounts`).
- Commit reads its result after releasing the transaction. It returns its own outcome if and only if no other thread
  began a transaction or failed in DetourUpdateThread in between (`Interleaving.ReturnIsOwn`); otherwise a failure can
  be reported as NO_ERROR and a success as another call's error (`FailureLost`, `SuccessLost`).
- Freeing a trampoline twice makes its free list cyclic (`TrampolineHeap.DoubleFreeCycles`, `FreeOnlyLive`).
- CImageData::Set without memory loses the old record when the new one does not fit the buffer
  (`PayloadStore.CImageData.Set`), and a buffer opened with a duplicate identifier finds the older duplicate after Set
  (`PayloadRecords.FindAfterSet`).
- DetourFindPayload called without a place for the size finds nothing (`PayloadModule.DetourFindPayload`).
- An import list with exactly one thunk is lost on Write and Read, until a file without a new section is written
  (`ImportRoundTrip.ImportsRoundTrip`, `LoneThunk`, `ImageCycles.ManyCycles`).
- An edit that only changes ordinals is not written, unless there are payloads: Write compares names
  (`ImageRoundTrip.EditedImageRoundTrip`, `OrdinalEditLost`).
- A symbol that was given an ordinal, written and read back has lost its original, so a reset does not restore it
  (`ImageRoundTrip.ResetImageRoundTrip`, `ImageCycles.ManyCycles`); writing the reset list without payloads does
  (`ImageCycles.ResetWritten`).
- A section with more raw than virtual data hides the section Write puts behind it (`ImagePlacement.NewSectionMapped`,
  `HiddenSection`).
- A symbol with a name but no original name and no original ordinal keeps the rewrite flag set after a reset
  (`ImportEditor.ResetRestores`).
- LinkEndChild accepts a node that is already a child of the same parent, and then breaks the sibling links
  (`XmlTree.LinkEndKeepsIff`, `RelinkBreaks`).
- The compensating word fails only when the CheckSum field is zero and the sums before and during the edit are 0 and
  0xFFFF or the reverse (`Checksum.CompensationExact`); no module with a signature is such a case
  (`Checksum.RestoreChecksum`).
- A clone stops at an attribute with empty name and value, drops document children, and drops the children of leaf
  nodes (`XmlShapes.CopyIsEqual`).
- The shell prints a double quote unescaped and then reads the string only up to it
  (`ShellString.ShellReadsItsOutput`).
- A lone backslash at the end of an argument makes the shell resolve what follows the argument into it, and the next
  arguments lose characters (`ShellLine.Tokenize`, `CutTokens`, `EatsArgument`).

## Model

| member | source | states |
|---|---|---|
| Disasm.CopyUndone | ThirdParty/Detours 3.0/disasm.cpp:218-377 | Copying an instruction that has no Invalid entry with nothing lost (`*plExtra == 0`) and copying the copy back, whatever the distance, gives the same decoding, nothing lost, and the original bytes. |
| Disasm.DecodeSameShape | ThirdParty/Detours 3.0/disasm.cpp:218-235 | Relocation cannot change how an instruction decodes: two byte strings that agree outside the relocated displacement decode to the same instruction. |
| Disasm.ExtraMeansTargetLost | ThirdParty/Detours 3.0/disasm.cpp:324-377 | AdjustTarget reports no extra bytes if and only if the copied branch reaches the same absolute address as the original one. |
| Disasm.EncodeFits | ThirdParty/Detours 3.0/disasm.cpp:324-377 | A displacement reads back as written if and only if it fits its width. |
| Disasm.DecodeLength | ThirdParty/Detours 3.0/disasm.cpp:128-157 | Whatever the opcode, an instruction is longer than its prefixes and at most 11 bytes longer. |
| Disasm.DecodeReads | ThirdParty/Detours 3.0/disasm.cpp:218-302 | The copier never needs to look at more than 12 bytes behind the prefixes to decide an instruction. |
| OpcodeTables.Entry | ThirdParty/Detours 3.0/disasm.cpp:128-157 | A table row with a relative operand has no ModR/M byte, and its displacement is 1, 2 or 4 bytes wide; a ModR/M byte lies inside the fixed part. |
| OpcodeTables.CopyTable0F | ThirdParty/Detours 3.0/disasm.cpp:780-1037 | Every two-byte opcode has a plain row or is invalid: behind 0F nothing dispatches again. |
| InstructionFormat.DecodeIsFormat | ThirdParty/Detours 3.0/disasm.cpp:237-1037 | For all bytes and both overrides, the tables and the dispatch delimit exactly the instruction that opcode ranges, ModR/M, SIB, displacement and immediate sizes give in numerals, without naming a row; so do its relative operand, target and validity. |
| InstructionFormat.GroupLengths | ThirdParty/Detours 3.0/disasm.cpp:408-447 | For every ModR/M byte and tail, F6 with reg 0 is one byte longer than with any other reg, F7 four bytes longer, two under prefix 66, and without a memory operand the others have two bytes. |
| InstructionFormat.CpuidTakesOneMore | ThirdParty/Detours 3.0/disasm.cpp:944 | cpuid, two bytes for the processor, is three for the tables, whatever the third is. |
| InstructionFormat.LostBytes | ThirdParty/Detours 3.0/disasm.cpp:324-377 | The extra bytes reported: 0 or 3 for a short jump, 0 or -3 for a loop, which cannot be enlarged, always 0 for a near jump or call. |
| InstructionCopier.CDetourDis.CopyInstruction | ThirdParty/Detours 3.0/disasm.cpp:218-235 | The copier, run in place on memory, writes exactly the relocated bytes at the destination and nothing else, and returns the address, the extra bytes and the branch target of the specification. |
| InstructionCopier.CDetourDis.CopyUnprefixed | ThirdParty/Detours 3.0/disasm.cpp:389-478 | The dispatch behind the prefixes (0F, F6, F7, FF, opcode row) has the effect of the specified instruction. |
| InstructionCopier.CDetourDis.CopyGroupFF | ThirdParty/Detours 3.0/disasm.cpp:449-478 | FF copies its instruction; for a call or jump through a slot the reported target is the word the slot holds, read before the copy is written, and other indirect forms report the dynamic target; reading an unmapped slot faults. |
| InstructionCopier.CDetourDis.CopyBytes | ThirdParty/Detours 3.0/disasm.cpp:237-302 | Fixed size, ModR/M and SIB bytes are combined into the length of the specified instruction; the copy equals its relocation. |
| InstructionCopier.CDetourDis.AdjustTarget | ThirdParty/Detours 3.0/disasm.cpp:324-377 | Only the displacement of the copy is rewritten; the reported target is the original branch's target and the extra bytes are those a wider displacement would need. |
| Relocation.MoveUndoneIff | ThirdParty/Detours 3.0/detours.cpp:774-800 | What Attach moved, the loop in Commit moves back byte for byte if and only if none of the moved instructions has an Invalid entry; then the "drastic error" branch is not reached. |
| Relocation.UnmoveRestores | ThirdParty/Detours 3.0/detours.cpp:774-800 | Moving back restores the code from any instruction boundary on, and stops at exactly `cbTarget`. |
| Relocation.UnmoveBreaks | ThirdParty/Detours 3.0/detours.cpp:774-800 | With an Invalid entry among the moved instructions some byte comes back different: the copy holds INT3 there and the code did not. |
| Relocation.SalcLost | ThirdParty/Detours 3.0/detours.cpp:774-800 | A concrete function, `salc; mov eax, imm32`: wherever its trampoline is, moving it and moving it back leaves INT3 in place of its first instruction. |
| Relocation.MoveBound | ThirdParty/Detours 3.0/detours.cpp:1152-1195 | If no instruction has more than three prefixes, Attach moves at most 18 bytes, so the rejection for too many instructions never fires and the copies and the jump fit rbCode. |
| CodeWriter.MoveCode | ThirdParty/Detours 3.0/detours.cpp:1152-1174 | Attach's copying loop on memory refines the specified move: the trampoline's bytes, the number of bytes moved, everything else untouched. |
| CodeWriter.MoveCodeBack | ThirdParty/Detours 3.0/detours.cpp:774-791 | Commit's copying-back loop refines the specified move back. |
| CodeWriter.CodeEndsFunction | ThirdParty/Detours 3.0/detours.cpp:132-155 | The test for the end of a function is the specified one on the bytes behind `pbOp`, read in place. |
| CodeWriter.GenJmpImmediate | ThirdParty/Detours 3.0/detours.cpp:76-82 | Writes the five bytes of a near jump and returns the address behind them. |
| CodeWriter.GenBrk | ThirdParty/Detours 3.0/detours.cpp:93-99 | Fills exactly the bytes up to the limit with INT3. |
| TrampolineRun.TrampolineRefines | ThirdParty/Detours 3.0/detours.cpp:1155-1174 | Running the trampoline from the copy of any moved instruction gives the machine state and the address that running the unpatched prologue gives, falling through to `pbRemain`, when no branch lands inside the moved bytes. |
| TrampolineRun.StepsAlike | ThirdParty/Detours 3.0/disasm.cpp:324-377 | One step of a moved instruction and one step of its copy end at corresponding boundaries, or at the same address outside the moved bytes. |
| TrampolineRun.StartsAreBoundaries | ThirdParty/Detours 3.0/detours.cpp:1155-1174 | Every instruction start of the original code, found by decoding from its first byte, is a place where the trampoline holds the matching copy. |
| TrampolineRun.JumpBack | ThirdParty/Detours 3.0/detours.cpp:1248-1250 | The jump behind the copies lands on the first byte that was not moved. |
| FunctionEnds.MoveStops | ThirdParty/Detours 3.0/detours.cpp:1152-1174 | Every move ends at the first instruction start at or behind 5, in front of an instruction that cannot be moved, or behind the first jmp, loopne, ret or int 3 listed by its bytes, and such an instruction is always the last one moved. |
| FunctionEnds.EndIsLast | ThirdParty/Detours 3.0/detours.cpp:132-155 | The test of the code is that list of bytes, at any offset. |
| FunctionEnds.MovesToLast | ThirdParty/Detours 3.0/detours.cpp:1155-1174 | A function whose last instruction can be read can be moved up to there. |
| TrampolineHeap.PopKeeps | ThirdParty/Detours 3.0/detours.cpp:519-537 | Taking the head of a free list keeps every list acyclic, free of duplicates and inside its region. |
| TrampolineHeap.PushKeeps | ThirdParty/Detours 3.0/detours.cpp:600-608 | Freeing a live slot, its region found by masking the address, keeps the lists and removes exactly that slot from the live ones. |
| TrampolineHeap.FreeOnlyLive | ThirdParty/Detours 3.0/detours.cpp:600-608 | Freeing a slot leaves well-formed lists if and only if the slot is live. |
| TrampolineHeap.DoubleFreeCycles | ThirdParty/Detours 3.0/detours.cpp:600-608 | Freeing a slot that is on its free list leaves a list that no finite chain describes. |
| TrampolineHeap.GrowKeeps | ThirdParty/Detours 3.0/detours.cpp:442-540 | A new region with its slots linked one behind the other leaves all lists well formed. |
| TrampolineHeap.BoundsAreNear | ThirdParty/Detours 3.0/detours.cpp:442-475 | A slot between the bounds for a target is reached, and reaches back, by an exact signed 32-bit displacement. |
| TrampolineHeap.BoundsReach | ThirdParty/Detours 3.0/detours.cpp:442-475 | Between the first 64K and 0xfff80000, the bounds hold exactly the addresses at most 0x7ff80000 bytes from the target. |
| TrampolineHeap.SlotsDisjoint | ThirdParty/Detours 3.0/detours.cpp:405-422 | Two different slots do not overlap. |
| TrampolineHeap.SlotInMemory | ThirdParty/Detours 3.0/detours.cpp:405-422 | A slot lies inside its region and behind the region's header. |
| TrampolineHeap.FreeIsEmpty | ThirdParty/Detours 3.0/detours.cpp:600-608 | A slot on a free list has `cbTarget` 0, the value by which Detach recognises a stale trampoline. |
| TrampolineHeap.LinkRegion | ThirdParty/Detours 3.0/detours.cpp:519-534 | The initialising loop links slots 3 to 2047 into one chain and touches no other slot. |
| TrampolineHeap.CTrampolineHeap.ChooseRegion | ThirdParty/Detours 3.0/detours.cpp:442-475 | The default region is kept when it serves; otherwise some serving region is found if and only if there is one. |
| TrampolineHeap.CTrampolineHeap.Alloc | ThirdParty/Detours 3.0/detours.cpp:442-598 | Returns a slot near the target that was not live and fills it with INT3, or NULL exactly when no region serves and none can be added; no other slot or byte changes. |
| TrampolineHeap.CTrampolineHeap.Free | ThirdParty/Detours 3.0/detours.cpp:600-608 | The slot is zeroed and is the only one to leave the live slots. |
| Restoration.RunRestores | ThirdParty/Detours 3.0/detours.cpp:675-1390 | Over any run of API calls by any threads on disjoint targets, once no trampoline is left and no transaction is open, every byte outside the trampoline regions has its initial value, except that the stamp in a module header may be there; every pointer that was ever hooked holds its resolved target, the others their initial value. |
| Restoration.OnlyHooksDiffer | ThirdParty/Detours 3.0/detours.cpp:675-1390 | After any run the memory has its size, and a byte outside the trampoline regions differs from its initial value only if it belongs to a header's stamp, which then reads "Detours!", or a committed, still attached hook covers it, whose target then holds exactly the jump and INT3. |
| HookedCode.HooksReachDetours | ThirdParty/Detours 3.0/detours.cpp:827-832 | At every moment of any run, each committed hook is that of an Attach call of the run: its pointer holds the trampoline, one step from the function of that call is the detour of that call, with the machine state untouched, and the moved bytes behind the jump are 0xCC. |
| HookedCode.RunLinks | ThirdParty/Detours 3.0/detours.cpp:1095-1304 | Over any run, each trampoline has the detour and target of the Attach call that queued it, and each hooked pointer is the one of that call. |
| HookedCode.CommitOpsCells | ThirdParty/Detours 3.0/detours.cpp:774-888 | After the loop of Commit each operation's pointer holds the trampoline, or the function again, and every other pointer what it held. |
| Restoration.RunKeeps | ThirdParty/Detours 3.0/detours.cpp:675-1390 | Every run of API calls keeps the hook invariant: each trampoline rebuilds its target's original bytes, committed hooks are exactly patched in, pending operations are consistent. |
| Restoration.ApplyKeeps | ThirdParty/Detours 3.0/detours.cpp:675-1390 | Each API call, DetourSetIgnoreTooSmall included, by whichever thread, keeps the hook invariant. |
| Restoration.CommitOpKeeps | ThirdParty/Detours 3.0/detours.cpp:774-888 | Inserting or removing one hook changes only its target's bytes and its pointer; removal always meets `cbCopy == cbTarget`, so ERROR_INVALID_DATA is never recorded. |
| Restoration.CommitKeeps | ThirdParty/Detours 3.0/detours.cpp:749-979 | Commit makes exactly the pending operations effective, leaves the error as it was, and releases the transaction. |
| Restoration.AbortKeeps | ThirdParty/Detours 3.0/detours.cpp:703-741 | Abort returns exactly the trampolines this transaction allocated and changes no pointer and no byte outside the regions. |
| Restoration.AttachKeeps | ThirdParty/Detours 3.0/detours.cpp:1030-1305 | Attach, on every one of its exits, keeps the hook invariant. |
| Transaction.SucceedsWithoutHooking | ThirdParty/Detours 3.0/detours.cpp:1095-1129 | Attach returns NO_ERROR with nothing queued if and only if, all earlier checks passed, the pointer resolves to the detour itself; any other success queues exactly the attach of this pointer in front of the others. |
| Transaction.SelfDetour | ThirdParty/Detours 3.0/detours.cpp:1095-1129 | A concrete function attached to itself: both the call and the Commit that follows return NO_ERROR, and nothing is hooked. |
| CallAnswers.AttachAnswers | ThirdParty/Detours 3.0/detours.cpp:1030-1305 | Every answer of Attach in a transaction without an error: which error for which cause, which are left for Commit with which pointer, and that a refused request queues nothing and leaves all code but its own slot alone. |
| CallAnswers.ShortFunctionRefused | ThirdParty/Detours 3.0/detours.cpp:1171-1185 | A function whose last instruction ends before its fifth byte is refused with InvalidBlock and nothing queued; Commit is told unless small functions are to be ignored. |
| CallAnswers.AttachOpens | ThirdParty/Detours 3.0/detours.cpp:1254-1304 | A queued Attach has made the target's pages writable code, 0x40, and the header reads "De" at offset 28; where it did not before, all of "Detours!" is there and the header's pages are open. |
| CallAnswers.DetachAnswers | ThirdParty/Detours 3.0/detours.cpp:1307-1390 | Every answer of Detach in a transaction without an error, the tests on the trampoline in numerals; accepted, it queues the removal of what the pointer holds, refused, it changes only the recorded error. |
| CallAnswers.DetachNeedsDetour | ThirdParty/Detours 3.0/detours.cpp:1358-1375 | Detach takes a live trampoline down if and only if it was attached with this detour. |
| CallAnswers.UpdateAnswers | ThirdParty/Detours 3.0/detours.cpp:981-1020 | Every answer of UpdateThread, and one suspension and one entry for each success. |
| CallAnswers.BeginsAfresh | ThirdParty/Detours 3.0/detours.cpp:680-701 | Begin does not depend on what an earlier transaction has left in the flag, the error and the lists. |
| CallAnswers.EndAnswers | ThirdParty/Detours 3.0/detours.cpp:703-768 | Only the owner ends a transaction; Commit with a recorded error does what Abort does and returns that error. |
| CallAnswers.RemovalFails | ThirdParty/Detours 3.0/detours.cpp:793-800 | A removal whose code does not come back in as many bytes records invalid data for its pointer, and only that removal does. |
| Restoration.DetachKeeps | ThirdParty/Detours 3.0/detours.cpp:1307-1390 | Detach, on every one of its exits, keeps the hook invariant, unless the pointer holds no trampoline and the bytes there look like one. |
| Restoration.DetachQueues | ThirdParty/Detours 3.0/detours.cpp:1347-1390 | Detach queues one removal, of the trampoline behind the pointer with its own target, or changes nothing but the recorded error. |
| Restoration.DetachKeepsIff | ThirdParty/Detours 3.0/detours.cpp:1347-1375 | On a pointer with no other pending operation, Detach keeps the hook invariant if and only if the pointer holds a live trampoline or the bytes it points to fail one of the two tests of a trampoline. |
| Restoration.DetachTakesCode | ThirdParty/Detours 3.0/detours.cpp:774-960 | A concrete unhooked function that pushes the detour's address: with nothing hooked Detach and Commit return NO_ERROR, five bytes of the function are written to the address in its bytes 24 to 27, the pointer is set to it, and the function's own first 24 bytes are cleared. |
| Protection.ProtectUndone | ThirdParty/Detours 3.0/detours.cpp:1254-1302 | Setting the protection of a range and setting back the reported old one is the identity if and only if all pages of the range had the protection of the first. |
| Protection.OnePageUniform | ThirdParty/Detours 3.0/detours.cpp:1254-1302 | A range inside one page has one protection, so the condition holds for it. |
| Protection.RunRestoresPages | ThirdParty/Detours 3.0/detours.cpp:942-957 | Over any run on targets of one protection each, a finished transaction leaves every page with its protection from before Begin, however many operations share a page, except the pages left open, which are writable code; so all come back if and only if those were writable code before. A page is left open where a header is marked, or fails to be after the target was opened, and no operation restores the page. |
| Protection.RunPages | ThirdParty/Detours 3.0/detours.cpp:942-957 | The same for any ranges, whatever protections their pages have: a page ends with the protection the run gave it last, which for a range of several is that of its first page. |
| Protection.LeftOpenIff | ThirdParty/Detours 3.0/detours.cpp:1282-1293 | A run leaves a page open if and only if one of its calls does in the state it is made in. |
| Protection.FirstAttachOpens | ThirdParty/Detours 3.0/detours.cpp:1282-1293 | A concrete first Attach in a module: committed or aborted, its transaction leaves the header's page writable code, and no other page changed. |
| Protection.ApplyUnwinds | ThirdParty/Detours 3.0/detours.cpp:710-727 | What a page will have once all pending operations are undone, head first, is changed by no call but an Attach or a Detach on a page that no pending operation covers, and there as the order of the VirtualProtect calls says. |
| Protection.HeaderFailureLeaks | ThirdParty/Detours 3.0/detours.cpp:1254-1302 | When the header cannot be made writable, Attach forgets the operation with the target page already changed: Abort restores the pages if and only if they were writable code already. |
| Stamps.StampedOnce | ThirdParty/Detours 3.0/detours.cpp:1282-1293 | Over any run a module is marked at most once, and never if it was before; its e_res reads "Detours!" for good once it is marked, aborted or not, and is untouched otherwise. |
| Stamps.ApplyStamps | ThirdParty/Detours 3.0/detours.cpp:1282-1293 | No other call, and no write of slots or targets, touches the stamp of a module. |
| Threads.RunRestoresCounts | ThirdParty/Detours 3.0/detours.cpp:981-1020 | Over any run of calls a thread's suspend count is its first value plus its pending suspensions plus the number of times it was suspended with no transaction open; between transactions it is back if and only if that number is 0. |
| Threads.OutsideForgotten | ThirdParty/Detours 3.0/detours.cpp:981-1020 | One such run: a thread suspended before Begin is still suspended after the transaction was aborted. |
| Threads.CommitMovesThreads | ThirdParty/Detours 3.0/detours.cpp:890-938 | Commit moves a thread at offset k of an inserted range to offset k of the trampoline; of a removed trampoline only the first four bytes, the size of a pointer, are moved back; all others keep their EIP. |
| Threads.HooksRefine | ThirdParty/Detours 3.0/detours.cpp:774-938 | After any run, a live trampoline entered at the copy of any instruction of the original code reaches the machine state and the address outside that the unhooked function reaches from that instruction. |
| Interleaving.InterleavingSound | ThirdParty/Detours 3.0/detours.cpp:680-700 | For every interleaving of threads, with the compare-exchange of Begin and the return of Commit as steps of their own, at most one thread is inside a transaction and the hook invariant holds. |
| Interleaving.NextExclusive | ThirdParty/Detours 3.0/detours.cpp:680-700 | Every step keeps the threads inside a transaction equal to its owner, and only the owner initialises it. |
| Interleaving.OthersChangeNothing | ThirdParty/Detours 3.0/detours.cpp:675-700 | A step of a thread that does not own the transaction changes nothing, except that DetourSetIgnoreTooSmall sets its one flag, DetourUpdateThread does the same as for the owner, and the swap of Begin takes a free transaction. |
| Interleaving.OnlyCommitChanges | ThirdParty/Detours 3.0/detours.cpp:749-832 | Target bytes and hooked pointers change in no step but the owner's Commit with no pending error; Attach writes its slot and the stamp only. |
| Interleaving.AllOrNothing | ThirdParty/Detours 3.0/detours.cpp:680-767 | Steps without such a Commit leave the program as it was, stamps aside, and once the transaction is over exactly the trampolines of committed hooks are left. |
| Interleaving.ErrorSticks | ThirdParty/Detours 3.0/detours.cpp:1048-1128 | Once an error is recorded, whatever all threads call until the owner ends the transaction changes nothing but the flag of DetourSetIgnoreTooSmall, and its Commit aborts and returns that error. |
| Interleaving.StepsRestoreCounts | ThirdParty/Detours 3.0/detours.cpp:680-1020 | The same under every interleaving, where a suspension between the compare-exchange of Begin and its initialisation is forgotten too: between transactions a suspend count is back if and only if the thread was never suspended while no transaction was under way. |
| Interleaving.ReturnIsOwn | ThirdParty/Detours 3.0/detours.cpp:960-979 | Whatever other threads do between the release of a transaction and the return, Commit returns its own outcome, for every outcome, if and only if none of them initialised another transaction or failed in DetourUpdateThread. |
| Interleaving.ReturnForgetsOwn | ThirdParty/Detours 3.0/detours.cpp:960-979 | Once another transaction was initialised, what Commit returns no longer depends on its own outcome. |
| Interleaving.FailureLost | ThirdParty/Detours 3.0/detours.cpp:960-979 | A Commit that aborted because of an error returns NO_ERROR when another thread begins a transaction before it returns. |
| Interleaving.SuccessLost | ThirdParty/Detours 3.0/detours.cpp:960-979 | A Commit that succeeded returns the error another thread's Attach recorded in the next transaction. |
| DetourEngine.CDetours.TransactionBegin | ThirdParty/Detours 3.0/detours.cpp:680-701 | The method on the static state refines the specified Begin. |
| DetourEngine.CDetours.TransactionAbort | ThirdParty/Detours 3.0/detours.cpp:703-741 | The loops of Abort refine the specified one: protections, trampolines, threads, owner, lists. |
| DetourEngine.CDetours.TransactionCommitEx | ThirdParty/Detours 3.0/detours.cpp:749-979 | All loops of Commit, on memory and free lists in place, refine the specified one, including the error and the failed pointer. |
| DetourEngine.CDetours.CommitOne | ThirdParty/Detours 3.0/detours.cpp:774-888 | One turn of the insert-or-remove loop writes what the specification of one committed operation says. |
| DetourEngine.CDetours.UpdateThreads | ThirdParty/Detours 3.0/detours.cpp:890-938 | The thread fix-up loops move the readable threads as specified and no others. |
| DetourEngine.CDetours.ReleaseAll | ThirdParty/Detours 3.0/detours.cpp:942-958 | The restoring loop undoes protections in list order and frees the trampolines of the finished operations. |
| DetourEngine.CDetours.ResumeAll | ThirdParty/Detours 3.0/detours.cpp:963-971 | Every suspended thread is resumed once for each entry and the transaction released. |
| DetourEngine.CDetours.UpdateThread | ThirdParty/Detours 3.0/detours.cpp:981-1020 | Refines the specified call, including the current thread, failed allocation and failed suspension. |
| DetourEngine.CDetours.AttachEx | ThirdParty/Detours 3.0/detours.cpp:1030-1305 | Refines the specified Attach on every exit, with the marking of the header; the trampoline it takes was free and is near its target. |
| DetourEngine.CDetours.QueueAttach | ThirdParty/Detours 3.0/detours.cpp:1254-1304 | Protects the target, then the header, reads and writes its e_res in place, and queues the operation, or frees the slot on either failure, as specified. |
| DetourEngine.CDetours.MarkHeader | ThirdParty/Detours 3.0/detours.cpp:1290-1293 | The four word stores write exactly "Detours!". |
| DetourEngine.FinishedSlot | ThirdParty/Detours 3.0/detours.cpp:1244-1250 | The copies, the jump behind them and the INT3 filling make up exactly the specified slot. |
| DetourEngine.CDetours.Detach | ThirdParty/Detours 3.0/detours.cpp:1307-1390 | Refines the specified Detach on every exit, reading the fields it tests from memory when the pointer holds no trampoline. |
| DetourEngine.GoodReady | ThirdParty/Detours 3.0/detours.cpp:749-979 | In every state a run can reach Commit and Abort meet their requirements on the engine. |
| DetourEngine.CDetours.ReadyTarget | ThirdParty/Detours 3.0/detours.cpp:1152-1195 | A function outside the regions whose instructions have at most three prefixes each meets the requirement of AttachEx. |
| DetourEngine.CDetours.SetIgnoreTooSmall | ThirdParty/Detours 3.0/detours.cpp:675-678 | Changes the flag and nothing else, whoever calls it. |
| DetourEngine.CDetours.SlotsConserved | ThirdParty/Detours 3.0/detours.cpp:519-608 | At every moment of a run, walking a region's free list ends, and comes past each slot exactly once if it is neither a committed hook's trampoline nor that of a pending attach, and not at all if it is: none is lost or handed out twice. |
| Checksum.CompensationExact | ThirdParty/Detours 3.0/creatwth.cpp:621-655 | For every edit of the bytes, the word written to e_res[0] makes the module checksum what it was if and only if the header's CheckSum field is not zero or the folded sums before and during are not zeros of different sign (0 and 0xFFFF). |
| Checksum.CompensationWords | ThirdParty/Detours 3.0/creatwth.cpp:621-655 | The same on the folded sums alone, for all words. |
| Checksum.RestoreChecksum | ThirdParty/Detours 3.0/creatwth.cpp:460-655 | For modules that start with a signature the checksum after the patch is always the one before: the failure branch is not reached. |
| Checksum.WordSumAppend | ThirdParty/Detours 3.0/creatwth.cpp:133-141 | The word sum of two blocks is the sum of theirs, so it does not depend on where a range is split. |
| Checksum.FoldCongruent | ThirdParty/Detours 3.0/creatwth.cpp:127-141 | The folded sum is congruent to the word sum modulo 0xFFFF. |
| Checksum.SumData | ThirdParty/Detours 3.0/creatwth.cpp:133-141 | The summing loop computes the one's-complement fold of the start value and all words. |
| Checksum.ChkSumRange | ThirdParty/Detours 3.0/creatwth.cpp:154-167 | Adds the words of the readable pages, skipping the others, as one unsplit sum. |
| Checksum.ComputeChkSum | ThirdParty/Detours 3.0/creatwth.cpp:169-209 | The checksum of all committed regions is that of their visible bytes laid end to end. |
| PayloadRecords.TilesExactly | ThirdParty/Detours 3.0/image.cpp:443-634 | A buffer decodes to a list of records if and only if it is exactly that list's encoding. |
| PayloadRecords.DecodeEncoded | ThirdParty/Detours 3.0/image.cpp:443-634 | Decoding an encoded list of records gives the list. |
| PayloadRecords.EncodeDecoded | ThirdParty/Detours 3.0/image.cpp:443-634 | Encoding what a buffer decodes to gives the buffer. |
| PayloadRecords.StoreIsMap | ThirdParty/Detours 3.0/image.cpp:573-634 | Over any sequence of Set, Delete and Purge, identifiers stay unique and Find gives for each identifier what was last written, zero-padded to 8. |
| PayloadRecords.FindAfterSet | ThirdParty/Detours 3.0/image.cpp:600-634 | Find after Set for every identifier, even when an older duplicate is in the list: then the duplicate, not the new data, is found. |
| PayloadRecords.OthersKept | ThirdParty/Detours 3.0/image.cpp:573-634 | Set and Delete keep the records of all other identifiers, in order. |
| PayloadRecords.UniqueKept | ThirdParty/Detours 3.0/image.cpp:573-634 | On a list with unique identifiers Set and Delete keep them unique; Find gives the new data, or nothing. |
| PayloadStore.CImageData.Find | ThirdParty/Detours 3.0/image.cpp:534-571 | The scan returns the first record's data for the identifier, or nothing, with its size. |
| PayloadStore.CImageData.Enumerate | ThirdParty/Detours 3.0/image.cpp:505-532 | Each call yields the next record and the iterator behind it; at the end it yields nothing and keeps the iterator. |
| PayloadStore.CImageData.Delete | ThirdParty/Detours 3.0/image.cpp:573-598 | Moves the bytes behind the record down, in place: the records are those of before without the first with the identifier; without a record behind it no byte is written. |
| PayloadStore.CImageData.Set | ThirdParty/Detours 3.0/image.cpp:600-634 | Replaces or appends a padded record; it fails if and only if there is no memory and the records without the old one, the padded data and a header exceed the buffer, and then the old record is lost exactly if there was one. |
| PayloadStore.CImageData.SizeTo | ThirdParty/Detours 3.0/image.cpp:443-470 | Growing keeps all records and fails only when memory is needed and not there. |
| PayloadStore.CImageData.Purge | ThirdParty/Detours 3.0/image.cpp:472-479 | No record is left. |
| PayloadModule.ModuleRoundTrip | ThirdParty/Detours 3.0/creatwth.cpp:783-875 | The headers DetourCopyPayloadToProcess lays out are recognised by the reader, which sees exactly one record with the given identifier and bytes. |
| PayloadModule.CopyAndFind | ThirdParty/Detours 3.0/modules.cpp:594-655 | For every identifier and byte string, what was copied is found: those bytes, with that length. |
| PayloadModule.DetourCopyPayloadToProcess | ThirdParty/Detours 3.0/creatwth.cpp:783-875 | Writes exactly the module's bytes, block behind block, and nothing outside. |
| PayloadModule.GetPayloadSectionFromModule | ThirdParty/Detours 3.0/modules.cpp:512-572 | Finds the section the specification finds, with the same error for each malformed header, and fills in a missing data offset. |
| PayloadModule.DetourFindPayload | ThirdParty/Detours 3.0/modules.cpp:599-655 | For every memory: the walk over the records, reading no field behind the first difference, finds what the specified walk finds and reports a fault as a missing payload; without a place for the size it finds nothing. |
| PayloadModule.PayloadsFound | ThirdParty/Detours 3.0/modules.cpp:599-655 | On data that records tile, the walk ends, and yields the bytes of the first record with the identifier or nothing. |
| PayloadFormat.ModuleBytes | ThirdParty/Detours 3.0/creatwth.cpp:783-875 | The written module byte by byte, in numerals: "MZ", e_lfanew 64, "PE", one section, its name and addresses, the detour header, and the record. |
| PayloadFormat.ReaderFinds | ThirdParty/Detours 3.0/modules.cpp:512-572 | The reader finds a payload section at an address if and only if these bytes are there: the two signatures, a size of optional header, the first section of the name, and through it a header of at least 64 bytes signed "Dtr". |
| PayloadFormat.ReaderErrors | ThirdParty/Detours 3.0/modules.cpp:512-572 | Which of the three errors it reports for which malformed header. |
| PayloadFormat.OffsetDefaults | ThirdParty/Detours 3.0/modules.cpp:512-572 | A data offset of zero becomes the size of the header; no other byte is touched. |
| SectionPayloads.ReadersAgree | ThirdParty/Detours 3.0/image.cpp:1770-1797 | On a section written from any records, the reader of loaded modules sees exactly the records the store held. |
| SectionPayloads.SameDataFound | ThirdParty/Detours 3.0/modules.cpp:599-655 | CImageData::Find before writing and DetourFindPayload after loading find the same bytes for every identifier. |
| ImportLayout.CheckImportsNeeded | ThirdParty/Detours 3.0/image.cpp:1352-1402 | The counts equal what is emitted: one table entry per file and one more, all thunks, all name bytes with padding; writing is needed if and only if some file or name differs from its original. |
| ImportLayout.CountFile | ThirdParty/Detours 3.0/image.cpp:1364-1396 | The counts of one file, for byways and plain files. |
| ImportLayout.CountNames | ThirdParty/Detours 3.0/image.cpp:1374-1390 | The counts of one file's symbols, with the padding of each name. |
| ImageOutput.NeededIsEnough | ThirdParty/Detours 3.0/image.cpp:1752-1758 | The size asked for in advance covers all six blocks with their alignment gaps. |
| ImageOutput.AlignBounds | ThirdParty/Detours 3.0/image.cpp:296-300 | Align gives a value not below its argument and less than one unit above it. |
| ImageOutput.AlignIsLeast | ThirdParty/Detours 3.0/image.cpp:296-300 | No smaller multiple would do. |
| ImageOutput.CImageThunks.Allocate | ThirdParty/Detours 3.0/image.cpp:669-689 | Writes one thunk at the cursor and moves it, or writes nothing when the table is full. |
| ImageOutput.CImageThunks.Current | ThirdParty/Detours 3.0/image.cpp:650-668 | The address of the next thunk, but 0 for a table of one thunk. |
| ImageOutput.CImageChars.AllocateName | ThirdParty/Detours 3.0/image.cpp:710-734 | Writes a name with its terminator and moves to the next even address, or writes nothing when there is no room. |
| ImageOutput.CImageChars.AllocateHint | ThirdParty/Detours 3.0/image.cpp:736-765 | The same with the hint word in front. |
| ImageOutput.EmitText | ThirdParty/Detours 3.0/image.cpp:710-765 | Writing a name behind the names so far keeps every other block of the section as it stands. |
| ImageWriter.CImage.SizeOutputBuffer | ThirdParty/Detours 3.0/image.cpp:886-913 | Afterwards the buffer holds the bytes asked for, in whole alignment units, or memory failed. |
| ImageWriter.CImage.AllocateOutput | ThirdParty/Detours 3.0/image.cpp:915-932 | Blocks are 8-aligned, zeroed and behind one another; none is handed out past the buffer. |
| ImageWriter.EmitFile | ThirdParty/Detours 3.0/image.cpp:1799-1841 | One file's name, thunks and descriptor are written at the places the layout gives them. |
| ImageWriter.CImage.FillSection | ThirdParty/Detours 3.0/image.cpp:1752-1870 | All blocks are allocated and filled; no allocation fails, and the tables end where they were counted to end. |
| ImageWriter.CImage.WriteDetourSection | ThirdParty/Detours 3.0/image.cpp:1740-1870 | The section holds header, payloads and the whole import directory at disjoint places; it is written if and only if there are payloads or imports differ. |
| SectionWords.SectionHolds | ThirdParty/Detours 3.0/image.cpp:1752-1870 | In the buffer so written, for every import list and in numerals: the header, the payloads, and at every 20 bytes a descriptor whose words lead to the file's name and thunks, with an empty one behind the last. |
| SectionWords.BywayStands | ThirdParty/Detours 3.0/image.cpp:1808-1822 | For an added DLL, OriginalFirstThunk and FirstThunk lead to two tables of their own, each 0x80000001 and 0. |
| SectionWords.SymbolsStand | ThirdParty/Detours 3.0/image.cpp:1822-1841 | For any other file, each lookup entry in order is the ordinal with the top bit set, or the address of hint, name and terminator, and 0 ends them. |
| ImportReader.ReadImports | ThirdParty/Detours 3.0/image.cpp:1134-1271 | The reading loops compute the specified import list, including the byway test and the original table that skips byways. |
| ImportReader.FindRva | ThirdParty/Detours 3.0/image.cpp:948-965 | The section search maps an address as specified. |
| ImportReader.CountDescriptors | ThirdParty/Detours 3.0/image.cpp:1150-1154 | Counts the descriptors up to the first with an empty lookup table, or leaves the file where the reader would. |
| ImportRoundTrip.ImportsRoundTrip | ThirdParty/Detours 3.0/image.cpp:1799-1844 | For every import list in a section the address map finds, what Write lays out is read back as the same list (order, byways, names, hints, ordinals, first thunks, original names and ordinals) if and only if the list does not have exactly one thunk; then no file at all is read. |
| ImportRoundTrip.LoneThunk | ThirdParty/Detours 3.0/image.cpp:650-668 | With one thunk the descriptor's lookup field is 0, which the reader takes for the end of the table. |
| ImportRoundTrip.ReadsFiles | ThirdParty/Detours 3.0/image.cpp:1152-1271 | The reader, standing at any descriptor of the table, reads the rest of the list. |
| ImportRoundTrip.FreshOrigs | ThirdParty/Detours 3.0/image.cpp:1152-1271 | On a first read each file's original names are those the original table still spells out. |
| ImportRoundTrip.OriginalsSurvive | ThirdParty/Detours 3.0/image.cpp:1152-1271 | Appending the new section keeps the original table and its names readable. |
| ImportRoundTrip.KeptFiles | ThirdParty/Detours 3.0/image.cpp:1134-1271 | A file that keeps the sections of another has the same import list in the same table. |
| ImportRoundTrip.FreshFiles | ThirdParty/Detours 3.0/image.cpp:1152-1271 | In an image without a .detour section every file read is under its original name and every symbol is its own original. |
| ImagePlacement.CopySections | ThirdParty/Detours 3.0/image.cpp:1640-1666 | The cursors behind the copied sections end at the first aligned addresses behind all headers and raw data, and behind all virtual ends. |
| ImagePlacement.NewSectionMapped | ThirdParty/Detours 3.0/image.cpp:948-965 | The section placed there is where the address map sends its addresses if and only if no other section's raw data reach past its address: the map goes by raw sizes, the placement by virtual ones. |
| ImagePlacement.ShortSections | ThirdParty/Detours 3.0/image.cpp:948-965 | So it is in every image whose raw data are nowhere longer than the aligned virtual size. |
| ImagePlacement.HiddenSection | ThirdParty/Detours 3.0/image.cpp:1640-1666 | A concrete image, 0x3000 bytes of raw data with a virtual size of 1, in which the new section is hidden. |
| ImportEditor.CImageImports.EditImports | ThirdParty/Detours 3.0/image.cpp:1439-1582 | For any callbacks that stop inserting, the in-place loop computes the specified list, and the file count equals the list's length, also when a callback refuses. |
| EditAnswers.EditIsAnswers | ThirdParty/Detours 3.0/image.cpp:1439-1582 | For every list and callbacks, an edit that goes through leaves, by the number of each call: in front of each file exactly the byways named when asked there, in order; old byways under the name answered or gone; other files and symbols as answered. It is then what commit answers. |
| EditAnswers.FailsWhenStopped | ThirdParty/Detours 3.0/image.cpp:1439-1582 | The editing ends early only at a call that answers FALSE, its last one. |
| ImportEditor.EditKeepsFiles | ThirdParty/Detours 3.0/image.cpp:1439-1582 | Plain files keep their identity and relative order through any edit; only names and ordinals change. |
| ImportEditor.OrigsOfPlain | ThirdParty/Detours 3.0/image.cpp:1439-1582 | Hence the original names of all files and symbols are kept by any edit. |
| ImportEditor.ResetRestores | ThirdParty/Detours 3.0/image.cpp:2096-2148 | The reset leaves no byway and every file at its original name; nothing is left to write if and only if every plain file had an original name and every symbol an original name or ordinal, or no name. |
| ImageRoundTrip.EditedImageRoundTrip | ThirdParty/Detours 3.0/image.cpp:1589-1870 | Opening, editing with any callbacks, writing and opening again gives back the edited list if and only if Write inserted a section and the list has not exactly one thunk, or Write inserted none, having no payloads and no changed name, and no symbol was given another ordinal. |
| ImageRoundTrip.OrdinalEditLost | ThirdParty/Detours 3.0/image.cpp:1340-1402 | A concrete image and a callback that changes an ordinal only: edit and Write succeed, and the written file has the old ordinal. |
| ImageRoundTrip.ResetImageRoundTrip | ThirdParty/Detours 3.0/image.cpp:2096-2148 | Resetting what is read back gives the original file names unless a list of one thunk was written, and all original imports if and only if, besides, no section was written or no symbol was given an ordinal. |
| ImageRoundTrip.ResetIsOriginal | ThirdParty/Detours 3.0/image.cpp:2096-2148 | Resetting any list as Read leaves it next to the original table restores every import if and only if each symbol imported by ordinal has the ordinal of the original; file names always come back. |
| ImageCycles.ManyCycles | ThirdParty/Detours 3.0/image.cpp:1134-1330 | However often an image is opened, edited by any callbacks and written, with or without a new section each time, the last file can be read; resetting gives the file names of the first image if and only if its file is not lost, which happens only to an image of one file without symbols, and all of its imports if and only if no symbol is imported by an ordinal it did not have there. |
| ImageCycles.ResetWritten | ThirdParty/Detours 3.0/image.cpp:1626-1645 | After any number of rounds, resetting the imports and writing without payloads inserts no section, and reading that file gives exactly the first image's list. |
| ImageCycles.CycleKeeps | ThirdParty/Detours 3.0/image.cpp:1270-1330 | One more round on an image that may have a rewritten section: the first image's sections and import table stay, and the list read is the one written, with the originals of the first image, or nothing in place of one thunk, or the first image's list. |
| ShellString.ShellReadsItsOutput | ThirdParty/sqlite 3/shell.c:1464-1481 | For every NUL-free arguments, a command line made of their printed forms is read back as those arguments if and only if none contains a double quote. |
| ShellString.ResolvePrinted | ThirdParty/sqlite 3/shell.c:518-541 | Resolving the escapes of a printed string gives the string, for all NUL-free strings. |
| ShellString.ReadsJoined | ThirdParty/sqlite 3/shell.c:1464-1481 | The same from any position of the line and with any room for arguments. |
| ShellString.SingleQuotesKeep | ThirdParty/sqlite 3/shell.c:1464-1481 | Arguments in single quotes are taken as they are, backslashes included: the line is read back as the command and those arguments if and only if none contains a single quote. |
| ShellString.WordsSplit | ThirdParty/sqlite 3/shell.c:1464-1481 | Words without quotes, blanks and backslashes are split at any runs of the six blanks, and taken as they are. |
| ShellString.FiftyWords | ThirdParty/sqlite 3/shell.c:1459-1481 | Of a line of more than fifty words the first fifty are taken. |
| ShellString.CEscapes | ThirdParty/sqlite 3/shell.c:1395-1430 | What is printed for each character, and what each escape stands for, in ASCII numerals. |
| ShellString.OctalEscapes | ThirdParty/sqlite 3/shell.c:1416-1426 | One to three octal digits are a number modulo 256, and a fourth is not part of it. |
| ShellLine.ResolveBackslashes | ThirdParty/sqlite 3/shell.c:1403-1430 | From any place in memory, the in-place loop writes what it resolves, and a terminator, over the text it reads; the write index never passes the read index. In front of a terminator a lone backslash makes it read on behind it. |
| ShellString.OutputCString | ThirdParty/sqlite 3/shell.c:518-541 | The printing loop appends exactly the quoted form. |
| ShellLine.Tokenize | ThirdParty/sqlite 3/shell.c:1464-1481 | On every line, the argument loop, cutting in place, leaves the memory and the argument vector of the specified tokenizer, also where resolving one argument overwrites the next. |
| ShellLine.CutTokens | ThirdParty/sqlite 3/shell.c:1464-1481 | When no argument's escapes end in a lone backslash, the loop leaves exactly the specified tokens in place, whatever is in memory behind the line. |
| ShellLine.EatsArgument | ThirdParty/sqlite 3/shell.c:1403-1430 | A concrete line with a lone backslash in front of a closing quote: the next argument, xyz, is read as yz. |
| ShellLine.PrintedLineRead | ThirdParty/sqlite 3/shell.c:1464-1481 | Printed arguments without a double quote are found in place by the loop. |
| ShellLine.SingleQuotesRead | ThirdParty/sqlite 3/shell.c:1464-1481 | Arguments in single quotes without one inside are found in place as they are, backslashes included. |
| XmlAttributes.TiXmlAttributeSet.Add | ThirdParty/tinyxml/tinyxml.cpp:1514-1526 | The attribute becomes the last of the circular list; forward and backward walks stay mutual reverses. |
| XmlAttributes.TiXmlAttributeSet.Remove | ThirdParty/tinyxml/tinyxml.cpp:1529-1546 | Exactly that attribute leaves the ring. |
| XmlAttributes.TiXmlAttributeSet.Find | ThirdParty/tinyxml/tinyxml.cpp:1572-1580 | The first attribute with the name, or null. |
| XmlAttributes.TiXmlAttributeSet.FindOrCreate | ThirdParty/tinyxml/tinyxml.cpp:1583-1592 | The first attribute with the name, or a new empty one at the end. |
| XmlAttributes.TiXmlAttributeSet.SetAttribute | ThirdParty/tinyxml/tinyxml.cpp:780-787 | The value is replaced in place or appended. |
| XmlAttributes.TiXmlAttributeSet.CopyTo | ThirdParty/tinyxml/tinyxml.cpp:853-873 | The copying walk sets on the target what Next visits, in order. |
| XmlAttributes.CopiesAll | ThirdParty/tinyxml/tinyxml.cpp:1170-1177 | The copy has the same attributes if and only if no attribute behind the first has both name and value empty. |
| XmlAttributes.SetPairKeeps | ThirdParty/tinyxml/tinyxml.cpp:780-787 | Setting keeps names unique and leaves all other attributes alone. |
| XmlAttributes.SetDistinct | ThirdParty/tinyxml/tinyxml.cpp:853-873 | Setting attributes with distinct names one after the other appends them in order. |
| Rings.RingInsert | ThirdParty/tinyxml/tinyxml.cpp:1514-1526 | Linking a node in front of the sentinel keeps the ring. |
| Rings.RingRemove | ThirdParty/tinyxml/tinyxml.cpp:1529-1546 | Unlinking a node keeps the ring of the others. |
| XmlLinks.InsertKeeps | ThirdParty/tinyxml/tinyxml.cpp:186-293 | Linking a node without a parent at any place keeps forward and backward sibling walks mutual reverses, parents right, and the whole a forest. |
| XmlLinks.RemoveKeeps | ThirdParty/tinyxml/tinyxml.cpp:335-358 | Unlinking a child and dropping everything below it keeps the forest. |
| XmlShapes.CopyIsEqual | ThirdParty/tinyxml/tinyxml.cpp:853-897 | The clone of a tree equals the tree if and only if no copied element has a blank attribute behind its first, no document is a child and no leaf kind has children. |
| XmlShapes.LinkCopy | ThirdParty/tinyxml/tinyxml.cpp:853-873 | Linking a finished clone behind the clones so far adds exactly its tree. |
| XmlShapes.InsertCopy | ThirdParty/tinyxml/tinyxml.cpp:230-293 | Inserting a clone at any place leaves its tree and all other children lists alone. |
| XmlShapes.ClearKeeps | ThirdParty/tinyxml/tinyxml.cpp:169-183 | Deleting all children keeps the forest of the nodes that are left. |
| XmlShapes.UnionKeeps | ThirdParty/tinyxml/tinyxml.cpp:853-897 | A document and a finished clone without a common node are one forest. |
| XmlTree.TiXmlNode.LinkEndChild | ThirdParty/tinyxml/tinyxml.cpp:186-211 | The node becomes the last child; a document is refused; the trees stay well formed if and only if the node had no parent, for the source also lets one pass that is a child here already. |
| XmlTree.LinkEndKeepsIff | ThirdParty/tinyxml/tinyxml.cpp:186-211 | Linking at the end keeps a forest if and only if the node had no parent. |
| XmlTree.RelinkBreaks | ThirdParty/tinyxml/tinyxml.cpp:186-211 | A child linked once more leaves sibling links that fit no list of children at all. |
| XmlTree.TiXmlNode.InsertBeforeChild | ThirdParty/tinyxml/tinyxml.cpp:230-260 | A clone stands in front of the child, every other child list is as it was, the clone's tree is the copied tree; refused if and only if the child is not this node's or a document is added. |
| XmlTree.TiXmlNode.InsertAfterChild | ThirdParty/tinyxml/tinyxml.cpp:263-293 | The same behind the child. |
| XmlTree.TiXmlNode.ReplaceChild | ThirdParty/tinyxml/tinyxml.cpp:296-332 | A clone takes the child's place; the child and everything below it are gone; nothing else changes. |
| XmlTree.TiXmlNode.RemoveChild | ThirdParty/tinyxml/tinyxml.cpp:335-358 | The child and everything below it are gone; refused if and only if it is not this node's child. |
| XmlTree.TiXmlNode.Clear | ThirdParty/tinyxml/tinyxml.cpp:169-183 | All children and everything below are gone; the nodes left are a sound forest. |
| XmlTree.TiXmlNode.Clone | ThirdParty/tinyxml/tinyxml.cpp:853-897 | A fresh disjoint set of nodes, well linked, whose tree is the copied tree. |
| XmlTree.ReplaceIs | ThirdParty/tinyxml/tinyxml.cpp:296-332 | Linking in place of a child is an insertion followed by a removal. |

## Left out

- Disasm.Decode: lengths are the tables' own, not those of the processor; CopyBytesRax is left out because no x86 row
  uses it, and so is the mode that measures without a destination.
- TrampolineRun.TrampolineRefines: instructions are abstract steps keyed by their bytes other than the displacement;
  the return address a moved call pushes is therefore not compared.
- TrampolineHeap.CTrampolineHeap.Alloc: the search for unused address space is a parameter; the regions' own
  protection changes and the region's link field are left out, the region list is a sequence.
- TrampolineHeap.CTrampolineHeap.Fill: `cbTarget`, `pbRemain` and `pbDetour` are typed fields beside the slot's bytes.
- DetourEngine.CDetours.AttachEx: the addresses behind both pointers are given (DetourCodeFromPointer is left out); the
  target has a slot's worth of memory, lies outside the regions, and its first instructions end within it.
- DetourEngine.CDetours.Detach: what is read at an address inside a region that is no slot is a parameter, since headers
  and fields of the regions are not bytes here; a pointer to the last 31 bytes of the address space is excluded.
- DetourEngine.CDetours.TransactionCommitEx: pending operations and threads are sequences, not linked records; their
  deletion has no counterpart.
- Restoration.RunRestores: targets of live hooks are disjoint and outside regions and stamps, headers stand at
  multiples of 64K outside the regions, no instruction moved is Invalid, and a pointer has at most one pending
  operation, since Attach reads code when called and Commit writes later. Detach is not called on a pointer to an
  unhooked function that looks like a trampoline, the case in which it breaks the invariant.
- Restoration.DetachTakesCode: releasing such a trampoline also links it into the free list of whatever stands at its
  64K boundary, two words that are not bytes of this memory.
- Protection.RunRestoresPages: each target range has one protection, as any range inside one page has; RunPages says
  what becomes of others. The restoring VirtualProtect calls succeed, as Commit and Abort take for granted.
- Threads.CommitMovesThreads: SetThreadContext succeeds.
- Threads.RunRestoresCounts: ResumeThread always succeeds, as Commit and Abort take for granted.
- Interleaving.InterleavingSound: calls other than Begin and the end of Commit are one step each, since only the owner
  of the transaction gets past their first test; DetourUpdateThread, which any thread may call, is one step too, so two
  threads linking their records at once are not modelled, nor is a suspension between the loop of Commit or Abort that
  resumes threads and the end of their list, which would be forgotten (StepsRestoreCounts).
- Checksum.RestoreChecksum: the same pages are readable at each of the three sums.
- PayloadStore.CImageData.constructor: the buffer it is given holds whole records with the reserved word 0; what
  IsValid would still accept beyond that (a last record that overruns the buffer) is not claimed.
- PayloadStore.CImageData.Delete: the buffer is writable; in the source that of a freshly opened image is a read-only
  view, on which Delete faults when a record lies behind the deleted one.
- PayloadModule.DetourFindPayload: a walk that comes to a record of size zero, on which the source loops for ever, is
  excluded; memory ends at one address, reading behind it being the structured exception the source catches, and no
  address wraps.
- ImageOutput.Align: the source masks bits, which for the powers of two that alignments are is rounding up.
- ImageWriter.CImage.WriteDetourSection: sizes and addresses stay below 2^31; the file operations, section headers,
  data directories, CLR header, debug directory and trailing data of CImage::Write are left out, and the descriptor's
  fields are stored at once.
- ImportReader.ReadImports: the parsing of headers and sections in CImage::Read is left out; the section table is given.
- ImportRoundTrip.ImportsRoundTrip: the new section is mapped, for which ImagePlacement gives the condition; a byway
  carries no symbols, names hold no NUL, ordinals have 16 bits, a plain file's first thunk lies outside the new section,
  and the original table spells out the originals.
- ImportEditor.CImageImports.EditImports: the list is a sequence with the count beside it; callbacks are functions of
  the call's number and arguments that stop asking for insertions; memory failures are left out.
- ImageRoundTrip.EditedImageRoundTrip: where a section is written, every symbol read first has an original name or a
  nonzero original ordinal; a name whose address no section covered could be covered by the new one.
- ImageCycles.ManyCycles: a written file keeps the bytes of the first image's sections, and Read drops the section the
  last round added and goes back to the first import table (image.cpp:1296-1316); trailing data behind the sections
  and headers are not part of it.
- XmlTree.TiXmlNode.Clone: nodes carry their attributes as a list, the circular list being verified on its own; fields
  of single node classes (CDATA, declaration fields, user data, location) are left out, as are memory failures.
- XmlTree.TiXmlNode.LinkEndChild: the node lies deeper than its new parent in some assignment of depths, which says
  that it is not an ancestor; the document's error state is left out.
- XmlTree.TiXmlNode.RemoveChild: deleting nodes is modelled as their leaving the set of the document's nodes.
- ShellLine.Tokenize: memory that the loop runs off, as it can when a lone backslash ends the line, is excluded.
- The return-address and jump-following helpers of `detours.cpp`, process creation, symbol loading and all other
  Win32 input and output.
- TinyXML's parser, printing, handles and visitors; the rest of the shell; the AORipper driver and its dialogs.
