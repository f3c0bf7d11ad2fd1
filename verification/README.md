# Verification models of Microsoft Detours as bundled with packr

The Dafny modules here model the parts of the Detours library that do the hard work, and prove what the
rest of the library relies on:

1. **The ARM64 instruction relocator and the trampoline it fills** (`Arm64*.dfy`). A small ARM64 machine
   (registers, flags, memory, program counter) decodes words and runs them. The relocator's routines are
   modelled as they write words, and the words are run: a moved instruction does at its new address what
   it did at its old one, a synthesised move leaves exactly the immediate, a filled trampoline does what
   the displaced instructions did, and the patch over a function jumps through the trampoline's pointer,
   in the bytes that a committed attach leaves.
   Where the code does not keep the meaning of an instruction, the exact condition is proved.
2. **The trampoline allocator** (`Trampoline*.dfy`): regions in a linked list, each with a free list
   threaded through its unused slots, first-fit allocation, release of idle regions through a pointer to
   a pointer, and the searches for a free region within reach of a target, which miss none.
3. **The transaction engine** (`Detour*.dfy`): begin, attach, detach, abort and commit over code bytes,
   user pointers, page protections and the allocator; nested histories of hooks, each in its own transaction,
   end exactly as a course computed beforehand says.
4. **The payload store and the image writer** (`Payload*.dfy`, `Image*.dfy`): records keyed by GUID in one
   buffer, the counting pass and the emitting pass over imports, the `.detour` section as bytes, from which a
   loader reads the import list, and its removal.
5. **The other instruction copiers**. x64 (`X64*.dfy`): opcode tables and prefix chains; against a decoder written after
   the manual, instructions are taken for as long as they are but for a few encodings; measuring is copying,
   direct branches keep their targets, and it is exact which moved code fits the trampoline and where a
   trampoline may lie. Thumb-2 (`Thumb*.dfy`): a machine that fetches halfwords, on which exactly the
   instructions that pass a test on their halfwords and the two addresses do after the move what they did. IA64 (`Ia64*.dfy`): bundles,
   whose IP-relative slots are sent through islands.
6. **The in-memory import table** (`UpdateImports.dfy`): its size in 32-bit arithmetic, its contents byte for byte,
   and what a loader that follows its addresses finds.

The modules build on each other in this order: `Arm64` (machine), `Arm64Encoding`, `Arm64Copy` (what each
routine emits), `Arm64Meaning` (what it should mean), `Arm64Bits` (bit-vector facts), `Arm64Relocation`,
`Arm64Simulation`, `Arm64Exactness`, `Arm64Disasm` (the class that writes), `Arm64Trampoline`,
`Arm64TrampolineRuns`, `Arm64Attach` (filling), `Arm64Patch`, `Arm64Address` (numbers as 64-bit words);
`TrampolineHeap`, `TrampolineRegions`, `TrampolineAllocator` (the class), `TrampolineConservation`, `TrampolineReach`;
`DetourOperations`, `DetourJump` (what committed bytes do), `DetourPending`, `DetourTransaction` (the class),
`DetourHistories`; `PayloadLayout`, `PayloadStore` (the
class), `PayloadWalks`, `ImageImports`, `ImageTables`, `ImageEmit`, `ImageOutput`, `ImageSection`, `ImageSerial`,
`ImageWrite`, `ImageRead`; `X64Copy`, `X64Simulation`, `X64Moved`, `X64Length` (the
manual's decoder), `X64Sizes`, `X64Trampoline`, `X64Displaced`, `X64Reach`, `X64Disasm` (the class); `ThumbEncoding`, `ThumbMachine`, `ThumbCopy`, `ThumbBits`, `ThumbSimulation`, `ThumbExactness`, `ThumbMoves`,
`ThumbDisasm` (the class; like `Arm64Disasm` it uses `DisasmBuffer`); `Ia64Bundle`, `Ia64Relocation` (with the class);
`UpdateImports`.

The instruction sets are those of the Arm Architecture Reference Manual (DDI 0487, section C6.2, and for Thumb-2
the ARMv7-A and ARMv7-R edition, section A8.8), the Intel Software Developer's Manual (volume 2A, section 2.1, and
volume 2D, appendix A), for XOP the AMD64 manual (volume 6), and the Itanium manual (volume 3). On the ARM machines, instructions the relocator copies unchanged are left
uninterpreted and are a parameter of every statement about runs.
What the system decides (memory for operations, free regions, page protection errors, the code a pointer
leads to) is a parameter of the method that asks for it.

## Where the code is exact and where it is not

These follow from the theorems named; the code is modelled as written.

- `RelocationExact`: moving an instruction keeps its meaning in every state if and only if it is
  `Relocatable`, a test on the word and the two addresses. It fails for: ADR beyond 1 MB but within 4 GB of
  pages when the target is above 4 GB or the register field is 31, because the second instruction is a
  32-bit ADD, in which 31 is the stack pointer; B.AL and B.NV that need a long form, because flipping the low bit of the
  condition does not invert them; CBZ, CBNZ, TBZ and TBNZ on x17 in the longest form; literal loads between 1 MB
  and 2 MB away, whose re-encoded offset wraps around (unless the destination is XZR); PRFM out of range, which
  becomes a move of zero into the register its operation field names.
- An attach displaces one to three words, exactly if `CanDisplace` holds of their number (`CanDisplaceIs`): none before
  the last ends the function, the last does if there are fewer than three, and NOP or zero words fill the twelve bytes up.
- After a committed attach, three steps from the target lead to the detour of its trampoline and change x17 only
  (`AttachOne`, `TransactionCommitEx`), if no later operation of the transaction has written there.
- The searches for a region return the first one that can be had in the first of six ranges that has one, and NULL
  exactly if none has (`AllocateNew`), but for what lies within 8000000h of the reserved range, which the steps over it
  can miss, and for what lies behind an address at which VirtualQuery or VirtualAlloc fails, where a search ends.
- Two of the 355 slots of a region are never handed out (`SlotsConserved`).
- Freeing a slot twice closes its region's free list into a cycle (`FreeingTwiceBreaks`), and nothing in
  `DetourDetach` keeps one trampoline from being removed twice in a transaction; the methods here require that
  it is not.
- The emptiness test of a region looks at `pbRemain` only. It is exact if no trampoline in use resumes inside
  its own region; `IsRegionEmpty` states what it computes without that hypothesis.
- An attach whose detour resolves to the target itself returns NO_ERROR and attaches nothing (`AttachEx`).
- VirtualProtect reports the protection of the first page of a range. A target that straddles two pages leaves the
  second with the first one's protection (`StraddlingPageIsNot`). Every page's final protection is known
  (`ProtectionsRestored`), and a page gets its own back if and only if `GetsBack` (`PageRestoredExactly`).
- A script of nested and consecutive hooks is run to its end exactly if its course, computed beforehand, is
  completed (`Play`). It gets stuck at a hook that asks for unmapped code, whose pointer no longer leads to its
  trampoline, or whose detach is not granted, and nowhere in a process that answers well (`OrderlyCompletes`).
- `CImageData::Find` ends exactly if it meets no record of size 0 on its way (`FindEnds`). `IsValid` accepts a last
  record that runs past the end (`OverrunAccepted`): a store is records exactly if it is accepted and its last record
  ends where the store does (`ValidExactly`). The methods of the store are stated for such stores.
- The loop that moves left-over data also looks at the new section header, which afterwards points to the section's
  bytes if and only if `PointsRight`, a test on the image before the call (`Write`, by `PointerRule`): the last
  section ends at a multiple of the file alignment, or no later than the headers and sections before it, or
  left-over data begins no earlier than the new section. It fails for one section that ends at 210h with an alignment
  of 200h (`HeaderIsMoved`). What is read back after a right header makes the later ones right (`Cycles`).
- The new section begins, in the file and in memory, at the least address that is a multiple of its alignment and behind
  all other sections (`Write`, `NextFollows`).
- x64: an instruction is taken for as long as it is if and only if it is not `Mistaken` (`SizeIsLength`): UD0 and UD1,
  EVEX-encoded 7A, 7B and 78 (the last with 66 or F2 and an operand not of three bytes), and moves of control registers whose mod field is not 3 are mistaken. A copy
  differs only in its relative field, which names the same address exactly if the offset fits (`OperandKept`). REX.W in
  front of another prefix is obeyed although the processor ignores it (`StaleRexIsMistaken`), and the field of XBEGIN is
  not moved (`XbeginIsNotMoved`).
- x64: whole instructions are displaced, up to the fifth byte or the end of the function (`DisplacedWhole`). LOOPNE is
  taken for such an end although it falls through (`LoopneEnds`).
- x64: a copied branch keeps its target exactly when the new displacement fits its field (`BranchKept`). LOOP and
  JCXZ, which keep their 8-bit field, report an extra length of -3 when it does not; a 32-bit field that
  does not fit is not reported at all.
- x64: the copy loop checks how many bytes it displaced, not how many it wrote. The copies and the exit jump fit the
  30 bytes exactly if they are measured to take at most 24 (`FitsAsMeasured`), and they do when no copy takes more than
  12 (`DisplacedFits`). Two short jumps and a MOV of 13 bytes pass the check and overrun them (`ThirteenDoesNotFit`), and
  so does a short jump of 12 bytes, which is widened to 15 (`TwelveWidenedDoesNotFit`). LOOP out of range moves the
  cursor back, in front of `rbCode` if it comes first (`LoopMovesBack`).
- x64: within the bounds of `detour_find_jmp_bounds` the patch, the jumps through the trampoline's pointers and a
  moved leading jump reach what they should (`HookReaches`). Above the lowest 2 GB the bounds are exactly what
  is near both the function and what its leading jump names (`JmpBoundsAreBoth`).
- `MoveExact`: a Thumb-2 instruction is moved faithfully in all states if and only if the move is `Harmless`, a test on
  its halfwords and the two addresses. It is not in three cases. ADR, ADD, MOV and BX with the program counter, BLX to a
  label, and LDRD, VLDR and LDC literals are copied unchanged: they survive a move within a word if they align the
  program counter and no move at all if they do not (`ShortUseFails`, `LongUseFails`). NOP.W, MSR, DMB and the like
  have the bits of B<c>.W with a condition of 14 or 15 and are re-encoded as branches; they survive only if they are not
  moved (`HintsAreChanged`, `HintFails`). The third case are literal loads:
- Thumb-2: a literal load or preload is moved faithfully in every state if and only if it loads a word into a
  register with an offset that is not subtracted, or is zero (`LiteralExact`). Loads of bytes and halfwords become word
  loads (`NarrowFails`); the sign of the offset is ignored (`OffsetsAreAdded`, `SubtractedFails`); with 15 in the register
  field the copy jumps to the literal's address (`PcLiteralJumps`) where a load jumps to the literal
  (`PcLoadFails`) and a preload goes on (`PreloadFails`): the test that turns preloads into no-ops comes too late.
- IA64: an island is reached exactly if it is within 16 MB of the moved bundle (`MovedReaches`), which the islands
  in a trampoline are (`TrampolineIslandsWithinReach`).
- Import tables: strings of more than 2 GB in all pass the overflow checks, but the copy of the first name then
  fails; success is given exactly by `Fits`.
- A non-empty import list with a single thunk gets a lookup table address of 0 (`shown` in `DescriptorOf`).

## Model

| member | source | states |
|---|---|---|
| Arm64Relocation.MovPiecesRun | detours/src/disasm.cpp:3984-4015 | executing the MOVN/MOVZ/MOVK sequence of the piece loop leaves exactly the 64-bit value in the register and changes nothing else |
| Arm64Relocation.MovImmediateRuns | detours/src/disasm.cpp:3984-4033 | the same for the whole routine, in its 32-bit inverted, inverted and plain forms, for every value and register, followed by any code |
| Arm64Relocation.MovImmediateLength | detours/src/disasm.cpp:3984-4033 | the synthesis takes one to four instructions |
| Arm64Relocation.InvertFlips | detours/src/disasm.cpp:4107-4108 | the inverted branch is taken exactly when the original is not, for conditions below 14 |
| Arm64Relocation.BranchOver | detours/src/disasm.cpp:4105-4120 | an inverted conditional over one jump falls past both exactly when the original condition fails and otherwise reaches the target |
| Arm64Relocation.ConditionalSimulates | detours/src/disasm.cpp:4089-4121 | in each of the three forms a relocated conditional branch transfers to the original target exactly when the original would, and otherwise ends behind the emitted words, changing at most x17 |
| Arm64Relocation.CopyWordsLength | detours/src/disasm.cpp:3945-3982 | one instruction becomes one to six words, which bounds the room a trampoline needs |
| Arm64Simulation.AdrSimulates | detours/src/disasm.cpp:4035-4065 | a relocated ADR leaves the same address in its register, in all three forms, under the exact condition |
| Arm64Simulation.AdrpSimulates | detours/src/disasm.cpp:4066-4087 | a relocated ADRP leaves the same page address, for all addresses |
| Arm64Simulation.BccSimulates | detours/src/disasm.cpp:4089-4121 | the words CopyBcc emits do what the conditional branch did |
| Arm64Simulation.BranchSimulates | detours/src/disasm.cpp:4123-4156 | a relocated B or BL reaches the original target for all aligned addresses; BL links to the end of the copy |
| Arm64Simulation.CbzSimulates | detours/src/disasm.cpp:4158-4190 | the words CopyCbz emits do what the compare-and-branch did |
| Arm64Simulation.TbzSimulates | detours/src/disasm.cpp:4192-4224 | the words CopyTbz emits do what the test-and-branch did |
| Arm64Simulation.LiteralSimulates | detours/src/disasm.cpp:4226-4274 | a relocated literal load loads the same value, re-encoded, as a synthesised move, or through x17 |
| Arm64Simulation.PureCopySimulates | detours/src/disasm.cpp:3932-3943 | an instruction that does not depend on its address runs the same when copied |
| Arm64Simulation.RelocationSimulates | detours/src/disasm.cpp:3945-3982 | for every instruction word, all aligned addresses and every state, running what the relocator emits is the source instruction's effect |
| Arm64Exactness.AdrFails | detours/src/disasm.cpp:4054-4059 | outside the condition the ADRP and 32-bit ADD leave another address in some state |
| Arm64Exactness.BccFails | detours/src/disasm.cpp:4104-4118 | B.AL and B.NV in a long form do not reach their target in any state |
| Arm64Exactness.TestOfX17Fails | detours/src/disasm.cpp:4178-4187 | a long-form test of x17 tests the address that was put there, and goes wrong in some state |
| Arm64Exactness.NearLiteralFails | detours/src/disasm.cpp:4235-4240 | a literal between 1 MB and 2 MB away is read from elsewhere in some state |
| Arm64Exactness.PrefetchFails | detours/src/disasm.cpp:4242-4252 | an out-of-range PRFM changes a register in some state |
| Arm64Exactness.RelocationFails | detours/src/disasm.cpp:3945-3982 | for every instruction outside the condition there is a state in which the copy does something else |
| Arm64Exactness.RelocationExact | detours/src/disasm.cpp:3945-3982 | relocation is faithful in all states if and only if the instruction is Relocatable |
| Arm64Disasm.CDetourDis.EmitPieces | detours/src/disasm.cpp:4010-4030 | the loop that emits move instructions writes exactly the specified words at the cursor and nothing else |
| Arm64Disasm.CDetourDis.EmitMovImmediate | detours/src/disasm.cpp:3984-4033 | writes the specified synthesis and returns four times its number of instructions |
| Arm64Disasm.CDetourDis.CopyAdr | detours/src/disasm.cpp:4035-4087 | writes the words proved above for ADR and ADRP and returns their size |
| Arm64Disasm.CDetourDis.CopyBcc | detours/src/disasm.cpp:4089-4121 | writes the words proved above for B.cond |
| Arm64Disasm.CDetourDis.CopyB_or_Bl | detours/src/disasm.cpp:4123-4146 | writes the words proved above for B and BL |
| Arm64Disasm.CDetourDis.CopyCbz | detours/src/disasm.cpp:4158-4190 | writes the words proved above for CBZ and CBNZ |
| Arm64Disasm.CDetourDis.CopyTbz | detours/src/disasm.cpp:4192-4224 | writes the words proved above for TBZ and TBNZ |
| Arm64Disasm.CDetourDis.CopyLdrLiteral | detours/src/disasm.cpp:4226-4274 | writes the words proved above for literal loads |
| Arm64Disasm.CDetourDis.CopyInstruction | detours/src/disasm.cpp:3945-3982 | writes the words RelocationSimulates is about, leaves the rest of the buffer, and returns the next source address, the branch target and the extra length |
| Arm64Trampoline.SeqRuns | detours/src/detours.cpp:2168-2202 | words that lie in memory run as the sequence of words does |
| Arm64Trampoline.CopyWordsQuiet | detours/src/disasm.cpp:3945-3982 | only the last word of an expansion can be an uninterpreted instruction, so an expansion cannot overwrite itself |
| Arm64TrampolineRuns.JumpRuns | detours/src/detours.cpp:1009-1030 | the jump through the pool reaches pbRemain and changes x17 only |
| Arm64TrampolineRuns.InstructionRuns | detours/src/detours.cpp:2168-2202 | one copied instruction in the trampoline, against the same instruction at its own address |
| Arm64TrampolineRuns.PrologueRuns | detours/src/detours.cpp:2168-2315 | from the copy of any displaced instruction on, the trampoline reaches where the displaced code goes, or pbRemain when it runs off its end, in the same state but for x17 |
| Arm64TrampolineRuns.FallingThrough | detours/src/detours.cpp:2168-2202 | displaced code that falls through was copied to the full count and ends at the address behind it |
| Arm64TrampolineRuns.ReferenceIsInOrder | detours/src/detours.cpp:2168-2202 | the reference run executes the displaced words in order at their own addresses, but for a call's return address |
| Arm64TrampolineRuns.TrampolineSimulates | detours/src/detours.cpp:2136-2315 | for any movable prologue, running rbCode as filled is running the displaced instructions and continuing twelve bytes into the function, but for x17 |
| Arm64Attach.DETOUR_TRAMPOLINE.CopyTarget | detours/src/detours.cpp:2168-2202 | the copy loop displaces the instructions up to the third or to one that, decoded, is RET or B, and writes their copies into at most 18 of the 32 words |
| Arm64Attach.DETOUR_TRAMPOLINE.SkipFiller | detours/src/detours.cpp:2204-2213 | padding makes up twelve bytes exactly if there is enough of it |
| Arm64Attach.DETOUR_TRAMPOLINE.EmitJumpBack | detours/src/detours.cpp:2296-2315 | the jump back, the breaks and the pool entry fill rbCode without overlapping the copies |
| Arm64Attach.DETOUR_TRAMPOLINE.Fill | detours/src/detours.cpp:2136-2315 | an attach fills the trampoline with the words TrampolineSimulates runs, saves the displaced words and sets pbRemain, exactly if CanDisplace holds for some number of words, and else reports ERROR_INVALID_BLOCK |
| Arm64Attach.CanDisplaceIs | detours/src/detours.cpp:1154-1175 | twelve bytes can be displaced exactly if, for some n, no word before the nth decodes as RET or B, the nth does if n is below three, and the words behind it up to the third are NOP or zero; n is then how many are copied |
| Arm64Attach.FilledIsInstalled | detours/src/detours.cpp:2254-2315 | a filled trampoline in memory is one TrampolineSimulates applies to |
| Arm64Patch.PatchDecodes | detours/src/detours.cpp:970-1007 | the three words of the patch are ADRP, LDR and BR of x17 for every code address and pointer within reach |
| Arm64Patch.PatchRuns | detours/src/detours.cpp:970-1007 | entering the patched function goes to the detour the pointer holds, touching x17 only |
| DetourJump.PatchDetours | detours/src/detours.cpp:1770-1775 | the bytes written over a target, with the trampoline laid out as its struct, lead in three steps to pbDetour, and are breaks behind the jump |
| DetourJump.CommitDetours | detours/src/detours.cpp:1702-1776 | so do the bytes of an attach after the whole list is written, if no later operation touches them |
| TrampolineHeap.SlotsDisjoint | detours/src/detours.cpp:1185-1189 | distinct slots of any regions do not overlap |
| TrampolineHeap.TakeKeeps | detours/src/detours.cpp:1416-1426 | taking the front of a region's free list keeps every free list, the region list and the partition of each region |
| TrampolineHeap.FreeKeeps | detours/src/detours.cpp:1468-1476 | giving a slot back puts it at the front of its own region's list and keeps the rest |
| TrampolineRegions.GrowKeeps | detours/src/detours.cpp:1436-1460 | a new region adds its slots from the third on to the free ones and changes nothing else |
| TrampolineRegions.DropKeeps | detours/src/detours.cpp:1501-1519 | unlinking and releasing a region without slots in use keeps the rest of the list in order |
| TrampolineAllocator.Regions.ThreadFreeList | detours/src/detours.cpp:1450-1458 | the loop threads an acyclic free list through exactly the slots from the third on, in address order |
| TrampolineAllocator.Regions.FindRegion | detours/src/detours.cpp:1428-1434 | the loop over the list ends at the first region whose front slot is within the bounds, or at NULL |
| TrampolineAllocator.Regions.AllocTrampoline | detours/src/detours.cpp:1398-1466 | an allocation takes the front slot of the default region, else of the first region in reach, else of a new one; it keeps the invariant and the contents of all slots in use, and sets the default region |
| TrampolineAllocator.Regions.FreeTrampoline | detours/src/detours.cpp:1468-1476 | the slot is zeroed and linked in front, and the invariant is kept |
| TrampolineAllocator.Regions.IsRegionEmpty | detours/src/detours.cpp:1478-1499 | the test is true exactly if no slot in use of the region resumes outside it: free and reserved slots never make it false |
| TrampolineAllocator.Regions.FreeUnusedRegions | detours/src/detours.cpp:1501-1519 | pruning ends, releases exactly the regions without slots in use, keeps the others in order with their free lists, and clears the default region exactly if one was released |
| TrampolineAllocator.FillKeeps | detours/src/detours.cpp:2236-2254 | filling in a slot that was handed out does not disturb the allocator |
| TrampolineConservation.AllocationIsSafe | detours/src/detours.cpp:1398-1466 | a returned slot was not in use, lies within the bounds and overlaps no slot in use; NULL is returned exactly if no region serves and a new one is not in reach |
| TrampolineConservation.SlotsConserved | detours/src/detours.cpp:1186-1189 | in every region free slots, slots in use and the two reserved ones add up to 355 |
| TrampolineConservation.FreeingTwiceBreaks | detours/src/detours.cpp:1468-1476 | after freeing a slot twice no list of free slots represents the region |
| TrampolineReach.WithinReach | detours/src/detours.cpp:96-108 | any byte of a trampoline within the bounds of a target is within 32 signed bits of the target's bytes and within the 21-bit page distance of ADRP, for every 64-bit target |
| TrampolineReach.RegionFromLo | detours/src/detours.cpp:1241-1286 | the upward search ends and returns the first aligned free region in its range, outside the reserved range, that can be had, and NULL exactly if there is none before an address at which it has to end, but for what the steps over the reserved range miss |
| TrampolineReach.RegionFromHi | detours/src/detours.cpp:1290-1337 | the same downward, wrap-around included, for regions that fit below the upper end |
| TrampolineReach.AllocateNew | detours/src/detours.cpp:1339-1377 | the result is the first that can be had in the first of the six ranges that has one, in the order of the source, and NULL exactly if none has; it is usable and near the target or between the bounds |
| TrampolineReach.RegionFor | detours/src/detours.cpp:1398-1440 | the same for the bounds of a target: what is found, and that nothing is found only if all ranges are exhausted |
| TrampolineReach.BoundsAreWide | detours/src/detours.cpp:96-108 | away from both ends of the address space, the bounds of a target are exactly 7ff80000h below and above it |
| TrampolineReach.NewRegionServes | detours/src/detours.cpp:1416-1422 | the last check on a new region passes for targets above 2 GB when the region ends below the upper bound |
| TrampolineReach.AllocationReaches | detours/src/detours.cpp:1398-1466 | an allocation for a target, given the region the searches found, returns a slot that was not in use, every byte of which is within 32 signed bits of the target; it is the new region's first if no other served |
| TrampolineReach.AllocateFor | detours/src/detours.cpp:1339-1466 | searches and allocation together: the region obtained is the first that can be had in the order of the six ranges, what is returned is within the bounds of the target, and something is returned for a target above 2 GB if the region found ends below the upper bound |
| DetourOperations.WriteBack | detours/src/detours.cpp:1704-1706 | writing back the bytes that were read undoes a write of the same length |
| DetourOperations.PendingIs | detours/src/detours.cpp:2319-2324 | while operations are pending a page is writable if one touches it and as before if none does |
| DetourOperations.ProtectionsRestored | detours/src/detours.cpp:1629-1636 | walking the list from its head gives every page the protection FinalProt says, in terms of those before the transaction |
| DetourOperations.SharedPageRestored | detours/src/detours.cpp:1862-1866 | a page has its protection back, however many operations share it, if each of them begins in it |
| DetourOperations.PageRestoredExactly | detours/src/detours.cpp:1862-1866 | a page has its protection back if and only if the first target to touch it begins in it, or begins in a page with the same protection at that time |
| DetourOperations.StraddlingPageIsNot | detours/src/detours.cpp:2319-2324 | the second page of a target that straddles two gets the first page's protection |
| DetourOperations.UndoAfterGrow | detours/src/detours.cpp:1638-1643 | undoing the pending operations and obtaining a region commute |
| DetourPending.AllocationUndone | detours/src/detours.cpp:1988-1994 | giving back the slot just taken restores the free lists exactly, but for a region obtained on the way |
| DetourPending.PushKeeps | detours/src/detours.cpp:2346-2352 | adding an operation at the head keeps what holds of the pending operations |
| DetourPending.HoldsBytesOnlyIfLive | detours/src/detours.cpp:2430-2442 | the check by which a detach recognizes a trampoline accepts no freed, new or reserved slot |
| DetourTransaction.Detours.TransactionBegin | detours/src/detours.cpp:1586-1608 | a transaction begins exactly if none is pending; otherwise nothing changes |
| DetourTransaction.Detours.TransactionAbort | detours/src/detours.cpp:1610-1652 | an abort by the owner ends in the state AbortIsAtomic describes; by another thread it changes nothing |
| DetourTransaction.Detours.WriteOperations | detours/src/detours.cpp:1702-1776 | the first loop of a commit writes targets and pointers in list order; in any memory with these bytes and the trampolines, three steps from each attached target lead to its detour, changing x17 only |
| DetourTransaction.Detours.FinishOperations | detours/src/detours.cpp:1859-1876 | the last loop puts back the protections and frees exactly the trampolines of removals |
| DetourTransaction.Detours.TransactionCommitEx | detours/src/detours.cpp:1676-1903 | a commit with a pending error is an abort and returns the error; otherwise all operations take effect, entering an attached function goes to its detour, and idle regions are released; by another thread it changes nothing |
| DetourTransaction.Detours.AttachTo | detours/src/detours.cpp:2066-2352 | each failure returns its error, gives the trampoline back and leaves list and protections; success adds the operation with a filled trampoline |
| DetourTransaction.Detours.AttachEx | detours/src/detours.cpp:1950-2353 | the error of every case, what is recorded as pending error, and that code and pointers never change |
| DetourTransaction.Detours.Detach | detours/src/detours.cpp:2355-2491 | the error of every case; success adds a removal of a trampoline in use, with the target it displaced |
| DetourHistories.AbortIsAtomic | detours/src/detours.cpp:1610-1694 | after an abort code, pointers, slots in use and every free list equal those at the beginning, regions obtained since have all slots free, and each page has its FinalProt |
| DetourHistories.CommitProtections | detours/src/detours.cpp:1859-1876 | after a commit each page has its FinalProt |
| DetourHistories.AttachesUndone | detours/src/detours.cpp:1702-1776 | attaches committed together and then detached together in any order restore all code, even for overlapping targets |
| DetourHistories.AttachOne | detours/src/detours.cpp:1586-2353 | one attach in its own transaction succeeds exactly if the detour is another function and memory, slot, displaced size and protection are granted; code, pointers, allocator and default region are exactly those of an attach that is done or refused, the new trampoline records what it displaced, and entering the function goes to the detour |
| DetourHistories.DetachOne | detours/src/detours.cpp:1586-2491 | one detach in its own transaction succeeds exactly if memory and protection are granted; then the saved bytes, the resolved target and the slot are back and idle regions are released, else nothing has changed |
| DetourHistories.CourseRestores | detours/src/detours.cpp:1586-2491 | any nested and consecutive hooks, on any functions, each in its own transaction and with any attach refused, leave every code byte as it was and each pointer where its last detach left it; the trace explains the script hook by hook |
| DetourHistories.Play | detours/src/detours.cpp:1586-2491 | running a script gets to its end if and only if its course, computed from script, process and status beforehand, is completed, and leaves exactly the status and the trace of that course, with the trampolines in use and their contents as they were |
| DetourHistories.OrderlyCompletes | detours/src/detours.cpp:1586-2491 | if functions, detours and trampolines resolve to themselves and can be displaced, and every detach is granted, a script that hooks no pointer within its own hook is completed, whichever of its attaches are granted |
| DetourHistories.PlayOrderly | detours/src/detours.cpp:1586-2491 | such a script is run to its end with the trace and the status of its course, and leaves all code, the trampolines in use and their contents as they were, with every pointer leading to a function |
| PayloadLayout.RecordAt | detours/src/detours.h:414-419 | where each record of a store begins and what its fields hold |
| PayloadLayout.WithoutRemoves | detours/src/image.cpp:549-577 | taking out a record removes its GUID's binding and no other |
| PayloadStore.CImageData.Find | detours/src/image.cpp:518-547 | the walk ends and returns the GUID's data exactly if the map the store stands for has it |
| PayloadStore.CImageData.Enumerate | detours/src/image.cpp:489-516 | from the iterator of a record: that record and the iterator of the next, or the end |
| PayloadStore.CImageData.EnumerateAll | detours/src/image.cpp:489-516 | enumerating yields every record once, in order, and ends |
| PayloadStore.CImageData.IsValid | detours/src/image.cpp:465-487 | a store whose records fill it exactly is valid |
| PayloadStore.CImageData.SizeTo | detours/src/image.cpp:432-456 | growing keeps the records |
| PayloadWalks.FindEnds | detours/src/image.cpp:518-547 | for any bytes of at most 2 GB, the walk of Find ends if and only if it meets no record of size 0 on its way |
| PayloadWalks.ValidExactly | detours/src/image.cpp:465-487 | any bytes are records if and only if IsValid accepts them and its walk ends at their end |
| PayloadWalks.OverrunAccepted | detours/src/image.cpp:465-487 | a single header that claims more bytes than the store has is accepted and is no record |
| PayloadStore.CImageData.Delete | detours/src/image.cpp:549-577 | the in-place move removes the GUID's binding and keeps all others |
| PayloadStore.CImageData.Set | detours/src/image.cpp:579-612 | binds the GUID to the data padded with zeros to a multiple of 8 and keeps all other bindings |
| PayloadStore.FindPayload | detours/src/modules.cpp:802-817 | the walk in a loaded module finds exactly what the store's Find finds |
| ImageImports.CheckImportsNeeded | detours/src/image.cpp:1344-1394 | the counting pass computes the sums the tables need, and reports a change exactly if a file is a byway or a name differs |
| ImageImports.AnyChangedMeans | detours/src/image.cpp:1353-1377 | what counts as a change, over all files and names |
| ImageTables.CImageThunks.Allocate | detours/src/image.cpp:647-659 | an entry is appended exactly if there is room |
| ImageTables.CImageChars.Allocate | detours/src/image.cpp:685-707 | a terminated, even-length string is appended exactly if there is room |
| ImageTables.CImageChars.AllocateHint | detours/src/image.cpp:709-733 | the same with a hint in front |
| ImageTables.DescriptorKept | detours/src/image.cpp:1826-1876 | tables that have only grown still describe the files they did |
| ImageEmit.Output.EmitNames | detours/src/image.cpp:1853-1871 | the thunks of a file stand for its names in order, each with its hint and name or its ordinal |
| ImageEmit.Output.EmitFile | detours/src/image.cpp:1826-1875 | the descriptor stands for the file, byway or not |
| ImageEmit.Output.EmitImports | detours/src/image.cpp:1821-1876 | with the room the counting pass asks for every allocation succeeds, the lookup and name tables are filled exactly, each descriptor stands for its file and a zero descriptor ends the table |
| ImageSerial.ImportsShown | detours/src/image.cpp:1821-1876 | descriptors, thunks and strings as bytes of a section: a loader that follows the addresses in them finds each file's name, hints, names and ordinals, and the end of each table |
| ImageSerial.SectionShows | detours/src/image.cpp:1776-1876 | a section that holds the emitted tables in the parts Write allocates, loaded at the address they were emitted for, shows the import list |
| ImageSerial.EmitTables | detours/src/image.cpp:1776-1876 | the emitted bytes have exactly the sizes of the counting pass and the addresses of their parts, for every import list |
| ImageOutput.CImageOutput.AllocateOutput | detours/src/image.cpp:891-908 | the next bytes of the buffer are zeroed and handed out exactly if they fit |
| ImageOutput.CImageOutput.AlignFileData | detours/src/image.cpp:1004-1020 | zeros are written through the buffer exactly if the address is not aligned |
| ImageSection.HeaderRoundTrip | detours/src/detours.h:388-412 | the section header's fields are read back from its bytes |
| ImageSection.Allocations | detours/src/image.cpp:1776-1819 | with a pre-PE size that is a multiple of 8 all allocations of Write succeed, in consecutive ranges of the buffer whose sum is what was asked for |
| ImageSection.FillTables | detours/src/image.cpp:1809-1876 | header, pre-PE bytes and payload survive the writing of the tables around them |
| ImageWrite.CImage.CopySections | detours/src/image.cpp:1660-1702 | the next file and virtual addresses and the offset of left-over data become exactly the maxima over headers and sections, aligned where the code aligns |
| ImageWrite.NextFollows | detours/src/image.cpp:1660-1702 | both addresses are the least multiples of their alignments behind the headers and the ends of all sections, given by header fields alone |
| ImageWrite.PointerRule | detours/src/image.cpp:1912-1916 | the new header is left alone by the loop over left-over data if and only if PointsRight holds of the image before the call |
| ImageWrite.HeaderIsMoved | detours/src/image.cpp:1912-1916 | it is not for an image with one section that ends at 210h and an alignment of 200h |
| ImageWrite.CImage.BuildSection | detours/src/image.cpp:1756-1892 | the section holds header, pre-PE bytes, tables and payload at the offsets its header names, and the last alignment does not touch it |
| ImageWrite.CImage.Write | detours/src/image.cpp:1630-1921 | for every import list: it fails only for want of memory or of a free section header; the section comes last, behind all others in file and memory, records what it replaces, shows the import list to a loader, and is pointed to if and only if PointsRight held |
| ImageRead.ReadSection | detours/src/image.cpp:1104-1320 | reading takes away a last section named .detour and puts back what it recorded |
| ImageRead.ReadUndoesWrite | detours/src/image.cpp:1268-1320 | what Write inserts Read takes away: directories, image size, section count, pre-PE bytes and payload |
| ImageRead.Cycles | detours/src/image.cpp:1104-1921 | any number of write-read cycles, each with another import list, leaves the image as it was, given only that the first header points right |
| ImageRead.FindPayloadInModule | detours/src/modules.cpp:711-817 | the loaded image shows exactly the payloads the store held when it was written |
| X64Simulation.SignedRoundTrip | detours/src/disasm.cpp:496-560 | a signed little-endian field gives a number back exactly if it fits |
| X64Simulation.MeasureCopy | detours/src/disasm.cpp:342-494 | for every finite prefix chain the size, the reported target and the length of the copy do not depend on the destination: measuring is copying |
| X64Simulation.ShortJump | detours/src/disasm.cpp:463-494 | a short jump or condition widened to 32 bits is the same branch to the same target, exactly when the new displacement fits |
| X64Simulation.LoopBranch | detours/src/disasm.cpp:496-560 | LOOP and JCXZ keep their target exactly when the 8-bit field still reaches it |
| X64Simulation.BranchKept | detours/src/disasm.cpp:361-494 | every direct branch, behind any prefixes, is copied as the same branch with its size and target reported, and lands on the original target exactly when the new displacement fits |
| X64Simulation.InstructionKeepsBranch | detours/src/disasm.cpp:342-359 | the same for CopyInstruction |
| X64Moved.AddressKept | detours/src/disasm.cpp:496-560 | a rewritten relative field names the same address exactly when it fits, and no other byte differs |
| X64Moved.CopyMoved | detours/src/disasm.cpp:361-920 | every instruction whose copy has its length, prefixed, VEX, EVEX and XOP included, is copied byte for byte but for at most one such field |
| X64Sizes.SizeIsLength | detours/src/disasm.cpp:342-920 | an instruction, decoded after the manual with prefixes, opcode, mod/rm, SIB, displacement and immediate, is taken for as long as it is if and only if it is not Mistaken |
| X64Sizes.OperandKept | detours/src/disasm.cpp:361-560 | its copy has the same bytes but for the relative field, which lies where the manual has it and names the same address exactly if the new offset fits |
| X64Sizes.StaleRexIsMistaken | detours/src/disasm.cpp:361-461 | REX.W in front of an operand size prefix makes the copier read 11 bytes of a 5-byte instruction |
| X64Sizes.XbeginIsNotMoved | detours/src/disasm.cpp:361-440 | XBEGIN is copied byte for byte, so that its copy names another address unless it is not moved |
| X64Trampoline.InstructionGrows | detours/src/disasm.cpp:361-920 | every instruction, whatever its prefixes, grows by nothing or by 3 or 4 bytes, the latter only if it has two or more, and by no more than the extra length reported unless it is LOOP or JCXZ out of range |
| X64Trampoline.DisplacedFits | detours/src/detours.cpp:2168-2300 | the bytes the copy loop writes for any code, with all widenings, and the 6-byte exit jump fit the 30 bytes of rbCode if no copy takes more than 12 bytes |
| X64Trampoline.FitsAsMeasured | detours/src/detours.cpp:2168-2300 | they fit if and only if the copies, measured for any destination, take at most 24 bytes |
| X64Trampoline.ThirteenDoesNotFit | detours/src/detours.cpp:2168-2300 | the bytes of two short conditional jumps and a 13-byte MOV pass the check on the displaced size and do not fit |
| X64Trampoline.TwelveWidenedDoesNotFit | detours/src/detours.cpp:2168-2300 | nor do two such jumps and a short jump behind ten prefixes |
| X64Trampoline.LoopMovesBack | detours/src/detours.cpp:2168-2202 | LOOP out of range makes the cursor move back by one byte |
| X64Trampoline.InBufferAsMeasured | detours/src/detours.cpp:2168-2300 | without LOOP or JCXZ out of range the loop stays in the buffer if and only if the copies are measured to take at most 24 bytes |
| X64Trampoline.FillCode | detours/src/detours.cpp:2168-2300 | whenever its writes stay in the buffer, the loop writes exactly the specified copies, in place, and the exit jump behind them |
| X64Displaced.DisplacedWhole | detours/src/detours.cpp:2168-2202 | what the loop displaces are the whole instructions up to the first that ends the function or reaches the fifth byte |
| X64Displaced.EndsFunctionIs | detours/src/detours.cpp:454-482 | the instructions that end a function are direct jumps, RET and INT3 without prefix, REP RET, jumps through memory with at most a segment prefix, and LOOPNE |
| X64Displaced.LoopneEnds | detours/src/detours.cpp:454-482 | LOOPNE, which falls through when not taken, ends the loop after its two bytes |
| X64Displaced.FillerIs | detours/src/detours.cpp:483-540 | the filler is INT3 and the recommended NOPs of one to eleven bytes, each with the size of the instruction |
| X64Displaced.SkipFiller | detours/src/detours.cpp:2204-2213 | consumes whole padding instructions up to the fifth byte, and stops before it exactly where there is no more padding |
| X64Reach.JmpBoundsReach | detours/src/detours.cpp:416-452 | whatever lies within the bounds is within 7ff80000h of the function and of the vector or target of its leading jump, which then does not wrap around |
| X64Reach.JmpBoundsAreBoth | detours/src/detours.cpp:416-452 | above the lowest 2 GB the bounds are exactly what is near both |
| X64Reach.HookReaches | detours/src/detours.cpp:345-452 | for a trampoline within the bounds the patch leads to rbCodeIn, the jumps read pbDetour and pbRemain, and a leading jump is displaced alone and names what it named |
| X64Reach.AllocatedHookReaches | detours/src/detours.cpp:1398-1466 | the same for whatever an allocation with these bounds returns, which was not in use |
| X64Disasm.CDetourDis.AdjustTarget | detours/src/disasm.cpp:496-560 | rewrites exactly the field, returns the old target and reports the extra length |
| X64Disasm.CDetourDis.CopyBytes | detours/src/disasm.cpp:361-440 | writes the bytes the theorems are about, or fails where the table has no fixed answer |
| X64Disasm.CDetourDis.CopyBytesJump | detours/src/disasm.cpp:463-494 | writes the widened jump |
| X64Disasm.CDetourDis.CopyVex | detours/src/disasm.cpp:748-845 | writes the bytes for the map and prefix that a VEX, EVEX or XOP escape selects |
| X64Disasm.CDetourDis.CopyFF | detours/src/disasm.cpp:697-746 | writes the bytes and reports as the target of FF 15 and FF 25 the pointer next to the code, unless FS or GS moves it, and a dynamic target for other indirect jumps and calls |
| X64Disasm.CDetourDis.CopyInstruction | detours/src/disasm.cpp:342-359 | writes what the theorems are about and nothing beyond it, and keeps target and extra length in the fields |
| ThumbEncoding.Branch5RoundTrip | detours/src/disasm.cpp:2602-2629 | decoding an encoded CBZ displacement gives it back exactly if it fits, for all even ones |
| ThumbEncoding.Branch8RoundTrip | detours/src/disasm.cpp:2631-2656 | the same for 16-bit conditional branches, on signed displacements |
| ThumbEncoding.Branch11RoundTrip | detours/src/disasm.cpp:2658-2683 | the same for 16-bit branches |
| ThumbEncoding.Branch20RoundTrip | detours/src/disasm.cpp:2694-2731 | the same for 32-bit conditional branches |
| ThumbEncoding.Branch24RoundTrip | detours/src/disasm.cpp:2733-2772 | the same for 32-bit branches, whose two high bits are stored against the sign |
| ThumbBits.LiteralLoadDecodes | detours/src/disasm.cpp:2809-2821 | the emitted literal load reads exactly the pool word, at addresses of 0 and of 2 modulo 4 |
| ThumbSimulation.CbzSimulates | detours/src/disasm.cpp:2882-2927 | moved CBZ and CBNZ, re-encoded or inverted over a long branch, reach the target exactly when they would have and else the end of the copy |
| ThumbSimulation.BCondSimulates | detours/src/disasm.cpp:2943-2999 | the same for B<c>, re-encoded or as three instructions |
| ThumbSimulation.BSimulates | detours/src/disasm.cpp:3001-3043 | a moved B reaches its target in each of its three forms |
| ThumbSimulation.BCondWSimulates | detours/src/disasm.cpp:3185-3242 | the same as for B<c> for its 32-bit encoding |
| ThumbSimulation.BWSimulates | detours/src/disasm.cpp:3159-3183 | a moved B.W reaches its target |
| ThumbSimulation.BlSimulates | detours/src/disasm.cpp:3249-3268 | a moved BL reaches its target and links to the end of the copy |
| ThumbSimulation.LiteralSimulates | detours/src/disasm.cpp:2835-2855 | a literal load through the pool loads the same word into the same register |
| ThumbSimulation.MoveSimulates | detours/src/disasm.cpp:2882-3345 | every instruction that the code takes for what it is, at all even addresses and in every state, does after the move what it did, whatever the alignment of the copy; one that is copied although it uses the program counter, if it finds the same value there |
| ThumbSimulation.HintsAreChanged | detours/src/disasm.cpp:3188-3203 | what only looks like B<c>.W is unchanged if and only if it is not moved |
| ThumbSimulation.PcLiteralJumps | detours/src/disasm.cpp:3302-3322 | a literal load or preload with register 15 is moved as a jump to the literal's address |
| ThumbSimulation.OffsetsAreAdded | detours/src/disasm.cpp:3285-3300 | the address that is loaded from is the literal's if and only if the offset is added or zero |
| ThumbExactness.NarrowFails | detours/src/disasm.cpp:3285-3340 | a byte or halfword load becomes a word load: in some state the register gets something else |
| ThumbExactness.SubtractedFails | detours/src/disasm.cpp:3285-3300 | a word load with a subtracted offset loads something else in some state |
| ThumbExactness.PcLoadFails | detours/src/disasm.cpp:3302-3322 | a load into the program counter goes elsewhere in some state |
| ThumbExactness.PreloadFails | detours/src/disasm.cpp:3302-3340 | a preload hint, which does nothing, becomes a jump that leaves the code in some state |
| ThumbExactness.LiteralFails | detours/src/disasm.cpp:3285-3340 | for every literal load or preload that is not understood there is a state in which its copy does something else |
| ThumbExactness.LiteralExact | detours/src/disasm.cpp:3285-3340 | a literal load or preload is moved faithfully in all states if and only if it is a word load into a register whose offset is added or zero |
| ThumbMoves.ShortUseFails | detours/src/disasm.cpp:3065-3136 | ADR, and ADD, MOV and BX with the program counter, are copied: if the program counter they use is another after the move, some state shows it |
| ThumbMoves.LongUseFails | detours/src/disasm.cpp:3445-3520 | the same for ADR.W, BLX to a label, and LDRD, VLDR and LDC literals, whatever the memory around the copy |
| ThumbMoves.HintFails | detours/src/disasm.cpp:3188-3203 | a hint or system instruction that looks like B<c>.W and is moved does something else in some state, near or far |
| ThumbMoves.MoveExact | detours/src/disasm.cpp:2864-3600 | every instruction the code has an answer for is moved faithfully in all states if and only if the move is Harmless, a test on the halfwords and the two addresses |
| ThumbDisasm.CDetourDis.EmitLongLiteral | detours/src/disasm.cpp:2835-2855 | pushes the address on the pool and writes the one or two loads, and nothing else |
| ThumbDisasm.CDetourDis.EmitLongBranchTo | detours/src/disasm.cpp:2857-2862 | writes the long branch and its pool word and returns its size |
| ThumbDisasm.CDetourDis.CopyMiscellaneous16 | detours/src/disasm.cpp:2882-2927 | writes the halfwords proved above for CBZ, the inverted one after the long branch it skips |
| ThumbDisasm.CDetourDis.CopyConditionalBranchOrOther16 | detours/src/disasm.cpp:2943-2999 | writes those for B<c> |
| ThumbDisasm.CDetourDis.CopyUnConditionalBranch16 | detours/src/disasm.cpp:3001-3043 | writes those for B |
| ThumbDisasm.CDetourDis.CopyConditionalBranch32 | detours/src/disasm.cpp:3188-3242 | writes those for B<c>.W |
| ThumbDisasm.CDetourDis.CopyBranch24 | detours/src/disasm.cpp:3159-3183 | writes those for B.W |
| ThumbDisasm.CDetourDis.CopyBranchLink | detours/src/disasm.cpp:3249-3268 | writes those for BL |
| ThumbDisasm.CDetourDis.CopyInstruction | detours/src/disasm.cpp:3542-3575 | writes the code and the pool word MoveSimulates is about, leaves the rest of the buffer, and reports the extra length |
| ThumbDisasm.WrittenIsPlaced | detours/src/disasm.cpp:3542-3575 | a buffer so written, lying in memory, is where MoveSimulates wants it |
| Ia64Bundle.GetSet | detours/src/disasm.cpp:1780-1840 | what is set in a 41-bit slot is got, for each of the three |
| Ia64Bundle.SetGet | detours/src/disasm.cpp:1780-1840 | putting back what was got changes nothing |
| Ia64Bundle.SetKeepsOthers | detours/src/disasm.cpp:1811-1840 | setting a slot leaves the template and the other slots |
| Ia64Bundle.UnitsAre | detours/src/disasm.cpp:1616-1651 | the units of the three slots are those of the manual's template table |
| Ia64Bundle.BrlImmInverse | detours/src/disasm.cpp:2089-2117 | setting and getting the immediate of a brl are inverse in both directions, exactly on the multiples of 16 |
| Ia64Bundle.SetBrlImmKeeps | detours/src/disasm.cpp:2103-2117 | the immediate is apart from the template, slot 0 and the opcode |
| Ia64Bundle.BrlIs | detours/src/disasm.cpp:2074-2117 | a brl is an MLX bundle with opcode 12 or 13, and its immediate the sign, imm39 and imm20b of formats X3 and X4 |
| Ia64Bundle.MovlGpRoundTrip | detours/src/disasm.cpp:2146-2191 | a gp set by movl is got, but for its low four bits |
| Ia64Relocation.SentGoes | detours/src/disasm.cpp:2031-2044 | a redirected instruction of each form goes to its new target exactly if that is within 16 MB |
| Ia64Relocation.SlotFormIs | detours/src/disasm.cpp:1952-2052 | the slots that are relocated are the IP-relative ones after the manual's template and format tables |
| Ia64Relocation.RedirectKeepsForm | detours/src/disasm.cpp:1984-2044 | it keeps its form, so that it is redirected and not changed |
| Ia64Relocation.SetBrlTargetGoes | detours/src/disasm.cpp:2119-2135 | a brl set to an aligned target goes there, whatever bundle it was made of |
| Ia64Relocation.IslandBranches | detours/src/disasm.cpp:2082-2130 | an island is nop.m and a brl.cond without a predicate, whatever its target |
| Ia64Relocation.OwnIsland | detours/src/disasm.cpp:2054-2070 | two relocated slots have different islands |
| Ia64Relocation.MovedReaches | detours/src/disasm.cpp:2031-2051 | a relocated slot reaches its island exactly if the island is within 16 MB |
| Ia64Relocation.TrampolineIslandsWithinReach | detours/src/detours.cpp:591-599 | the islands of a trampoline are |
| Ia64Relocation.CopyKeepsTargets | detours/src/disasm.cpp:2193-2211 | in a moved bundle each IP-relative slot reaches, by its own island, the target it had; the template, the other slots and the target of a brl are kept |
| Ia64Relocation.DetourIa64Bundle.RelocateInstruction | detours/src/disasm.cpp:1952-2052 | redirects the slot and sets the island exactly if the instruction is IP-relative, and says so |
| Ia64Relocation.DetourIa64Bundle.RelocateBundle | detours/src/disasm.cpp:2054-2070 | returns 16 times the number of IP-relative slots, with or without islands, and sets as many islands, each for its slot |
| Ia64Relocation.DetourIa64Bundle.Copy | detours/src/disasm.cpp:2193-2211 | writes the bundle and the islands CopyKeepsTargets is about |
| UpdateImports.Measure | detours/src/uimports.cpp:143-181 | the chain of overflow checks passes exactly if the unbounded size is below 2^32, and gives that size |
| UpdateImports.SizedAt | detours/src/creatwth.cpp:358-378 | the first "??" is replaced by the digits and nothing else |
| UpdateImports.SizedBeforeZeros | detours/src/uimports.cpp:226-240 | the search goes to the end of the buffer, yet only the current name can change |
| UpdateImports.ReplaceOptionalSizeA | detours/src/creatwth.cpp:358-378 | the loop does that in place |
| UpdateImports.Places | detours/src/uimports.cpp:143-181 | descriptors, thunks and strings of every DLL lie in this order inside cbNew |
| UpdateImports.OwnedIsClear | detours/src/uimports.cpp:205-262 | the places of different DLLs are disjoint |
| UpdateImports.FillTable | detours/src/uimports.cpp:205-262 | the old descriptors and every new DLL end up in their places and the final obStr is cbNew, exactly if Fits |
| UpdateImports.TableDetermined | detours/src/uimports.cpp:205-262 | no byte of the table is unaccounted for |
| UpdateImports.LoaderFinds | detours/src/uimports.cpp:242-260 | following the addresses in each new descriptor leads to ordinal 1 and a terminator in both thunk tables and to the DLL's name |
| UpdateImports.UpdateImports | detours/src/uimports.cpp:143-299 | succeeds exactly if the strings fit, memory is found and the old table is readable; then the written bytes and both directories are as stated |

## Left out

- The 32-bit variant of the x86 copier.
- X64Disasm.CDetourDis.CopyFF: the pointer behind FF 15 and FF 25 is named by its address and not read, and the limit on references to one module is not modelled.
- Thumb-2 IT blocks and table branches on the program counter, the alignment of the pool pointer before a copy, and measuring into the scratch buffer.
- IA64: SetInst, SetData, SetNop and SetStop, and the parts of a trampoline around the moved bundle.
- The import parser of `CImage::Read`; the tables Write emits are described against the import list instead.
- In UpdateImports: the module's headers, the substitute IAT directory found among the sections, the repair of an import size of 0, and failures to write to the process.
- Thread suspension and the translation of a suspended thread's instruction pointer; the alignment table is not modelled, as its packed fields and the size used in the test make the general claim false.
- Process creation, the helper process, symbol lookup, tracing, debug breaks and structured exception handling.
- The CLR header, the debug directory, the symbol table, left-over data behind the sections, and the path of Write that restores a file without a section.
- Page protections of the trampoline regions themselves; making them writable is a parameter of Begin.
- The launcher, its native parts and the sample programs: thin wrappers around the system.
- Literal-load encodings that the architecture leaves unallocated are excluded from the relocation theorems.
- Arm64TrampolineRuns.TrampolineSimulates: assumes that the displaced code does not overwrite its trampoline or the literals the relocator read, and that no displaced instruction after a use of x17 depends on it. The displaced code is followed up to its first taken branch, wherever that leads.
- Arm64Patch.PatchRuns: takes the page distance within the reach of ADRP as a hypothesis; that the allocator's bounds imply it is TrampolineReach.WithinReach, over numbers.
- TrampolineReach.RegionFromLo: assumes that VirtualQuery answers for process addresses only and with a block that contains the address. That the search misses nothing is stated for answers that agree with each other (`Consistent`, which `EMPTY_PROCESS` meets); for regions near the reserved range, which the steps over it can miss, nothing is claimed.
- TrampolineReach.AllocateNew: which region is found is stated for the same answers.
- DetourHistories.AttachOne: that the function leads to its detour is stated for targets below 2^64, and in any memory that holds the code and the trampoline, whose bytes the model of the transaction does not include.
- X64Sizes.SizeIsLength: is about instructions to which the architecture gives a meaning in 64-bit mode, and whose REX prefix, if any, stands next to the opcode; XBEGIN is stated apart.
- X64Displaced.DisplacedWhole: requires that the instructions on the way are such and not mistaken.
- X64Displaced.SkipFiller: that an attach fails if fewer than five bytes come together, and the saving of the bytes, are modelled for ARM64 only.
- DetourTransaction.Detours.AttachTo: the code a trampoline is filled with is that of Arm64Attach and is not repeated; the number of displaced bytes is a parameter that is a multiple of 4, and the size of rbRestore is not checked against it.
- DetourTransaction.Detours.AttachEx: what a pointer resolves to and how many bytes an attach displaces are parameters; for ARM64 code the latter is what Arm64Attach.DETOUR_TRAMPOLINE.Fill computes.
- DetourTransaction.Detours.Detach: requires that the trampoline has no pending operation, and that memory which is not a trampoline does not pass for one.
- DetourTransaction.Detours.TransactionCommitEx: requires that trampolines in use resume outside their regions, on which the release of regions relies.
- DetourHistories.Play: the code map does not include the trampolines' own memory, so a script gets stuck at a hook on a trampoline.
- DetourHistories.OrderlyCompletes: takes as a hypothesis how the process resolves pointers and how many bytes it displaces, for whatever code lies at the mapped addresses; DetourHistories.PlainProcess is an example.
- X64Trampoline.FillCode: requires that its writes stay in the buffer, which the code does not check; when they do is X64Trampoline.InBufferAsMeasured.
- X64Reach.AllocatedHookReaches: the allocator has the slots of ARM64, of 184 bytes, of which an x64 trampoline takes 96.
- X64Reach.HookReaches: other instructions with 32-bit fields, which the bounds do not consider, are not claimed to reach; for them it is exact when they do, by X64Moved.AddressKept and X64Simulation.BranchKept.
- TrampolineReach.AllocateFor: the search for a region comes first and not only when no region serves; it is taken to change nothing but the system.
- X64Copy.CopyInstruction: an instruction is given by its bytes, of which there are finitely many, and one that runs past them is not copied; encodings the tables mark invalid copy nothing.
- ThumbSimulation.MoveSimulates: encodings that the architecture leaves unpredictable, such as CMP with the program counter, are instructions of their own here that do not read it.
- ThumbMoves.MoveExact: leaves out IT and table branches on the program counter, at which the code stops; the failing states of literal loads are for literals outside the trampoline and not at address 0, as in ThumbExactness.LiteralExact.
- ThumbExactness.LiteralExact: for literals outside the trampoline and not at address 0, and encodings to which the architecture gives a meaning.
- ThumbDisasm.CDetourDis.CopyInstruction: requires room for the longest form, which the code does not check.
- UpdateImports.LoaderFinds: takes the table's end within 4 GB of the module as a hypothesis, which the 64-bit search ensures; in 32 bits addresses wrap around.
- PayloadStore.CImageData.Set: requires that the sizes do not overflow 32 bits, and that the data does not lie in the store itself, where the move of Delete would change it.
- ImageWrite.CImage.Write: takes the path that inserts a section, as for changed imports or a payload; sizes below 4 GB are required, and the tables are emitted into arrays of their own, whose bytes are then written to their parts of the buffer.
- ImageSection.Allocations: is about parts of any sizes; that these are the counted ones is stated by ImageWrite.CImage.Write.
- ImageSection.FillTables: is about tables of any contents; that they show the import list is stated by ImageWrite.CImage.Write.
- PayloadWalks.FindEnds: the bytes behind the store are taken to be readable; above 2 GB the offset can wrap around.
- ImageOutput.Align: defined as a least multiple, which the source's masks compute for powers of two.
- ImageImports.CheckImportsNeeded: sizes are unbounded numbers; strings are sequences without a zero byte.
