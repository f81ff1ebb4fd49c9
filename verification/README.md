# Verification model of the x86 emulator core

A Dafny model of the three layers of the emulator, and proofs about them.

**Memory** (`mem.c`). `PagedMemory.Mem` is the two-level page table as the code builds it: a directory of tables of
page records, all allocated on first use, with an attribute byte and a data byte per address, default attributes for
pages that do not exist yet, pages mapped to host memory, word and dword fast paths, range permissions, reset of the
access statistics, and cloning. Every method is proved against `FlatMemory`, a plain map from the 2^32 addresses to
an attribute and a byte. `AttrWords` holds the masked tests and ORs of two or four attribute bytes at a time,
`MemoryTraces` whole histories, `Clones` a clone and its original side by side, `PermRanges` the reach of a
permission update, `MemoryLaws` what accesses do to neighbouring bytes, `Accesses` what one access reports, delivers
and stores, and `Mappings` what mapping and unmapping a page does.

**Arithmetic** (`prim_ops.c`). `Bits` proves the closed forms of the carry and borrow chain for every width and
every bit; `Arithmetic`, `Conditions`, `Parity`, `Rotates`, `MulDiv` and `Decimal` build the primitives on them,
with flags that mean what the Intel 64 and IA-32 Software Developer's Manual, Volume 1, section 3.4.3.1 says.

**The machine** (`decode.c`, `ops.c`). `Machine.Emu` has the registers, flags, segments, mode, pending interrupt and
time stamp as fields, and a `Mem`. `Stack`, `Frames` (pusha, popa), `EnterLeave`, `Interrupts` (segment loads,
delivery, int, iret), `Strings` (movsb), `Scans` (cmpsb, scasb) and `RunLoop` (prefixes, verdicts, dispatch, the run
loop) are methods over it. Each is proved equal to a function on machine states `St`, and the theorems are about
those functions. `Requests` is about interrupt requests over whole runs, `EndlessLoop` about the verdict "infinite
loop", `Prefixes` about the prefix loop. `Delivery`, `Displays`, `Instructions`, `Dispatch` and `Verdicts` say what
delivery and segment loads, enter, operands with jumps and data accesses, and the verdicts come to in terms of the
bytes in memory, without those functions.

A method that changes an object names its effect as a function of the old state; a ghost field `made` of `Emu`
records every interrupt request, which the program itself does not keep. Memory shared with the host is one array of
bytes, so that a page mapped to it aliases whatever else is mapped to the same bytes. The refinement of the paged
memory covers such aliasing; round trips through writes to memory (stack, frames, interrupts, string copies) are
about memories in which no two addresses share a host byte, and about bytes that may be read and written.

## Model

| member | source | states |
|---|---|---|
| PagedMemory.Mem.GetPage | mem.c:205-244 | Looking a page up allocates directory, table and block as needed and changes nothing that can be observed; the page returned is the one of the address, and with `create` it exists afterwards |
| PagedMemory.Mem.MemIo | mem.c:760-816 | Every memory access, of any kind, size and address, gives the value, the error bit and the memory of its single-byte accesses on the flat map, and brings exactly the touched pages into being |
| Accesses.AccessFails | mem.c:319-816 | An access reports an error exactly when some byte it touches lacks the permission it needs or, for reads and fetches, was never initialised; accesses without permission check never do; in terms of the memory before it, for every kind, size and address |
| Accesses.AccessReads | mem.c:319-464 | A read or fetch delivers, little end first, what each permitted byte holds and 0xff for each denied one, and changes no byte |
| Accesses.AccessWrites | mem.c:467-571 | A write stores byte i of the value in the i-th byte it touches if that one may be written, leaves denied bytes and all others alone, and without permission check stores always, when no two addresses share a host byte |
| PagedMemory.Mem.RWord | mem.c:356-388 | A word read, by fast path or byte by byte, is two byte reads at addr and addr + 1 modulo 2^32: value, marks and error |
| PagedMemory.Mem.RDword | mem.c:391-428 | A dword read, by fast path or not, across pages and round the top of memory, is four byte reads |
| PagedMemory.Mem.WWord | mem.c:502-533 | The same for word writes, host memory that aliases itself included |
| PagedMemory.Mem.WDword | mem.c:536-571 | The same for dword writes |
| PagedMemory.Mem.SetPerm | mem.c:247-292 | The update in three parts (first page, whole pages, last page) sets the attributes the flat specification sets and creates exactly the pages `PermPages` names |
| PagedMemory.Mem.SetPage | mem.c:295-316 | Mapping a page relocates its 4096 bytes to the host buffer and counts them as written; unmapping brings its own bytes back |
| Mappings.MappedShowsHost | mem.c:295-316 | A mapped page shows the host bytes in order, counted as initialised, with its permissions, and no other page changes |
| Mappings.UnmappingRestores | mem.c:295-571 | After a page was mapped, used through any history of accesses, permission updates, resets and mappings of other pages, and unmapped, each byte of it is what it was before |
| PagedMemory.Mem.ResetAccessStats | mem.c:159-180 | The reset clears the marks of the pages that exist; it clears all marks of the memory if and only if no default attribute carries any |
| PagedMemory.Mem.CleanMeans | mem.c:159-180 | That condition in terms of bytes: no byte outside the existing pages shows a mark |
| PagedMemory.Mem.Clone | mem.c:125-156 | The clone shows the same memory with fresh tables and blocks; pages in host memory stay mapped to the same bytes |
| AttrWords.Test32 | mem.c:403-411 | The masked dword test is true exactly when all four attribute bytes have all the wanted bits |
| AttrWords.Or32 | mem.c:415-417 | The masked dword OR sets the bits in each of the four attribute bytes and in none else |
| MemoryTraces.RunOps | mem.c:159-571 | For every sequence of accesses, permission updates, mappings and resets, the page tables answer each operation as the flat map does and end in the same state |
| MemoryTraces.CloneIsIsolated | mem.c:125-156 | After a clone, no history run on the clone changes an attribute, a mapping or an own byte of the original; only host memory mapped into both is shared |
| MemoryTraces.OriginalLeavesClone | mem.c:125-156 | And no history run on the original changes them in the clone |
| Clones.CloneSideBySide | mem.c:125-156 | A clone and its original, used in any interleaving: each follows its own reference with shared host memory, and has exactly the attributes, mappings, own bytes, error flag and pages that its own operations alone would have given it |
| Clones.NeitherNotices | mem.c:125-156 | The same of the references, for every history on the two |
| MemoryTraces.FoldMeaning | mem.c:319-499 | From a byte without marks, after any sequence of events: R and X marks exactly for permitted reads and fetches, W for stores, the invalid mark exactly for denied writes and for permitted uses before anything was stored, permissions unchanged |
| MemoryTraces.DeniedReadUnmarked | mem.c:319-340 | A read of a byte without read permission raises the error, reads 0xff and leaves no mark |
| MemoryTraces.StatisticsAreExact | mem.c:159-499 | After a reset, any history of accesses and mappings leaves on each byte the marks of that byte's own events, for every byte of an existing page and every byte whose default attribute has no marks |
| MemoryTraces.CountAccesses | mem.c:159-499 | The same of the page tables themselves, for all bytes, when no default attribute has marks |
| MemoryTraces.DirtyDefaultSurvivesReset | mem.c:159-180 | A fresh memory whose default attribute has a mark still shows it after a reset |
| PermRanges.SetPermIsExact | mem.c:247-292 | The update changes the attributes of [start, end] and nothing else, on every memory, if and only if start > 0 or end is in page 0 |
| PermRanges.FirstPageOnly | mem.c:270-280 | Setting permissions on [0, 0x1000] leaves byte 0x1000 as it was |
| MemoryLaws.WriteThenRead | mem.c:356-571 | A permitted write of 1, 2 or 4 bytes at any address, then a permitted read, returns the value and raises no error, when no two addresses share a host byte |
| Bits.CarryChainIsCarry | prim_ops.c:36-67 | Bit i of ab + r'(a + b), computed from the operands and the n-bit sum, is the carry out of bit i, for every width, operand, carry in and i |
| Bits.BorrowChainIsBorrow | prim_ops.c:69-94 | The same for a'b + r(a' + b) and the borrow |
| Arithmetic.AddCarry | prim_ops.c:212-363 | add and adc at all three widths: the sum modulo 2^w, CF unsigned overflow, OF signed overflow, AF a carry out of the low digit, SF, ZF and PF of the result |
| Arithmetic.SubBorrow | prim_ops.c:1748-1884 | sub and sbb: the difference, CF unsigned borrow, OF signed overflow, AF a borrow into the low digit |
| Arithmetic.Inc | prim_ops.c:606-663 | inc, with the chain grouped differently in the byte form: the flags of adding 1, except that CF stays |
| Arithmetic.Dec | prim_ops.c:537-600 | dec: the flags of subtracting 1, except that CF stays |
| Arithmetic.Neg | prim_ops.c:726-797 | neg: the flags of subtracting from 0, CF set unless the operand is 0 |
| Arithmetic.Cmp | prim_ops.c:429-490 | cmp returns its first operand and sets the flags of the difference |
| Parity.EvenParityIs | prim_ops.c:100-113 | The table lookup is true exactly when the byte has an even number of ones |
| Conditions.ConditionsOrder | prim_ops.c:2559-2599 | After cmp, the conditions B, BE, Z, L, LE and their negations are the unsigned and signed comparisons of the operands |
| Conditions.ConditionsResult | prim_ops.c:2559-2599 | And O, S, P and their negations say whether the signed difference overflows, is negative, and has an even low byte |
| Rotates.Rcl | prim_ops.c:830-945 | rcl by any distance is that many one-bit rotates of CF and operand together, in result, CF and OF; only rcl_long by 32 (mod 33) mixes in whatever its undefined shift yields |
| Rotates.RclIsExact | prim_ops.c:830-945 | rcl is the rotate, whatever the undefined shift yields, if and only if it is not the long form by 32 (mod 33), or CF is set and the operand is 0xfffffffe or 0xffffffff |
| Rotates.RclFullFails | prim_ops.c:927-945 | rcl_long of 1 by 32 with CF clear is 0, but comes out different when the shift yields 1 |
| Rotates.Rcr | prim_ops.c:951-1094 | The same for rcr with no exception: in rcr_long by 32 the undefined shift is masked away |
| Rotates.RclAdds | prim_ops.c:830-945 | rcl by s and then by t is rcl by s + t, result and CF |
| Rotates.RcrUndoesRcl | prim_ops.c:830-1094 | rcr by s undoes rcl by s, result and CF |
| Rotates.Rol | prim_ops.c:1100-1169 | rol by any distance is that many one-bit rotates; CF and OF come from the end bits of the result |
| Rotates.Ror | prim_ops.c:1175-1244 | ror likewise |
| Rotates.RotRUndoesRotL | prim_ops.c:1100-1244 | Rotating right by s undoes rotating left by s, at every width and distance |
| MulDiv.Mul | prim_ops.c:2088-2150 | mul stores the double-width product; CF = OF exactly when it does not fit one register |
| MulDiv.Imul | prim_ops.c:1998-2082 | imul stores the signed product; CF = OF exactly when it does not fit |
| MulDiv.Div | prim_ops.c:2228-2294 | div stores quotient and remainder, or changes no register and requests vector 0 |
| MulDiv.Idiv | prim_ops.c:2156-2222 | idiv likewise, truncating toward zero; only for the minimum dividend divided by -1 at word and long width does it act on whatever C's undefined division yields |
| MulDiv.IdivIsSure | prim_ops.c:2180-2222 | idiv does what truncating division says, whatever the undefined division yields, if and only if the dividend is not the minimum or the divisor not -1 |
| MulDiv.IdivFails | prim_ops.c:2189 | 0x80000000 by 0xffff at word width is due a fault, but a result is stored when the undefined division yields 0 |
| MulDiv.DivIsExact | prim_ops.c:2228-2294 | div succeeds with the unique quotient and remainder whenever a quotient fits, and faults exactly otherwise |
| MulDiv.IdivIsExact | prim_ops.c:2156-2222 | The same for idiv and signed division |
| MulDiv.MulThenDiv | prim_ops.c:2088-2294 | mul and then div by the same nonzero operand restores the accumulator, remainder 0, no fault |
| MulDiv.ImulThenIdiv | prim_ops.c:1998-2222 | imul and then idiv likewise, and it never meets the quotient C leaves undefined |
| MulDiv.ResultsKeepRest | prim_ops.c:1998-2294 | All four write no register and no half of a register besides AX, DX:AX or EDX:EAX |
| Decimal.DaaByte | prim_ops.c:496-511 | daa does both adjustments in the order of the code, with its flags |
| Decimal.DasByte | prim_ops.c:517-531 | das likewise |
| Decimal.AdditionIsDecimal | prim_ops.c:212-511 | adc followed by daa along two packed-BCD numbers of any length is decimal addition, CF the decimal carry |
| Decimal.SubtractionIsDecimal | prim_ops.c:517-1767 | sbb followed by das is decimal subtraction, CF the decimal borrow |
| Decimal.SubtractionUndoesAddition | prim_ops.c:212-1767 | Subtracting what was added gives the digits back, and the borrow is the carry |
| Decimal.AdditionFlags | prim_ops.c:496-511 | After adc and daa of packed bytes AF is the decimal carry of the low digit, and SF, ZF, PF describe the result |
| Decimal.SubtractionFlags | prim_ops.c:517-531 | After sbb and das AF is the decimal borrow of the low digit, and the others describe the result |
| Machine.Emu.IntrRaise | decode.c:328-335 | A request is kept only while none is pending |
| Machine.Emu.CheckDataAccess | decode.c:1845-1882 | An access past the segment limit requests a general protection fault; the access itself is not blocked |
| Instructions.FetchChecks | decode.c:557-606 | A data read past the limit requests vector 13 with the selector as error code, one within it requests nothing, and both deliver the bytes at base + offset |
| Instructions.StoreChecks | decode.c:674-717 | A data write likewise, storing there and nowhere else |
| Machine.Emu.FetchImm | decode.c:366-453 | An immediate is fetched at CS base + EIP; a byte that may not be executed halts, and the pointer advances all the same |
| Instructions.FetchReads | decode.c:366-453 | The operand is what the bytes there show, and the machine halts exactly if one of them may not be executed or was never initialised |
| Stack.PushN | prim_ops.c:2490-2516 | push moves the 16- or 32-bit stack pointer down modulo its size and stores |
| Stack.PopN | prim_ops.c:2522-2556 | pop reads and moves the pointer up |
| Stack.PopsReversePushes | prim_ops.c:2490-2556 | Popping in reverse what was pushed, words and longs in any mix that fits the stack, returns every value and restores every register, through any wrap of the pointer |
| Frames.PushAllRegs | ops.c:1135-1163 | pusha is eight pushes that store the stack pointer of before the first one |
| Frames.PushaImage | ops.c:1135-1163 | What lies on the stack afterwards: EDI on top, then ESI, EBP, ESP of before, EBX, EDX, ECX, EAX |
| Frames.PopAllRegs | ops.c:1170-1196 | popa is seven pops and a skip by operand size |
| Frames.PopaUndoesPusha | ops.c:1135-1196 | popa after pusha gives all eight registers back, whatever the other seven hold in between, if and only if operand and stack size agree or the skip does not cross 64K |
| Frames.PopaAfterPusha | ops.c:1135-1196 | With nothing in between, all eight registers are what they were under the same condition and no other |
| Frames.PopaFails | ops.c:1190 | With 16-bit operands, a 32-bit stack and ESP = 0x10008, popa after pusha leaves ESP = 8 |
| EnterLeave.EnterN | ops.c:3837-3905 | enter saves the frame pointer, copies the display, pushes the new frame pointer and makes room for the locals |
| Displays.EnterMoves | ops.c:3837-3905 | BP ends at the saved frame pointer and SP below display and locals, for every local size and nesting level, on every stack |
| Displays.EnterStores | ops.c:3837-3905 | The old frame pointer lies at the new one, entry i of the display is what the caller's entry i showed before, unless the copy has overwritten that one by then, and the last entry is the new frame pointer |
| Displays.CopyOverwritten | ops.c:3862-3885 | Concretely: with BP = SP the first entry copied is the frame pointer that was just saved |
| Instructions.EnterRuns | ops.c:3837-3905 | The same pointers from the operands in the code, the nesting level modulo 32 |
| EnterLeave.LeaveN | ops.c:3912-3929 | leave resets the stack pointer and pops the frame pointer |
| EnterLeave.LeaveUndoesEnter | ops.c:3837-3929 | leave after enter restores all registers for every local size and nesting level, through any wrap of the pointer, when operand and stack size agree |
| EnterLeave.LeaveNeedsMatch | ops.c:3853-3929 | The stack pointer comes back if and only if they agree |
| EnterLeave.LeaveFails | ops.c:3853-3929 | With 32-bit operands, a 16-bit stack and SP = 0x1000, leave after enter ends at SP = 0x1002 |
| Interrupts.DecodesEncoded | decode.c:1892-1895 | Decoding a descriptor gives back base, access bits and limit, the limit scaled by granularity |
| Interrupts.SetSegRegister | decode.c:2010-2064 | A segment load in real mode, of a null selector, or through a descriptor table; whatever cannot be loaded requests a general protection fault and leaves the register |
| Delivery.SegmentLoads | decode.c:1884-2064 | What a load leaves in the register, by the eight bytes of the table the selector names: base, scaled limit, access bits; GDT or LDT; present code or data segments only; anything else requests vector 13 with the selector and leaves the register |
| Delivery.FlagsLayout | include/x86emu.h:352-360 | Each flag lies at its architectural bit of the flags word |
| Interrupts.GenerateIntN | decode.c:2100-2143 | Delivery pushes flags, CS and EIP (of before a restarted instruction), clears IF and TF and enters the handler |
| Delivery.EntersHandler | decode.c:2067-2143 | In real mode vector n enters the handler whose offset and selector are the words at 4n and 4n + 2 of the table, with IF and TF clear, and IP, CS, flags lie in the three words below the old stack pointer, IP lowest |
| Delivery.Delivers | decode.c:2067-2143 | Delivery in any mode: the frame with 16- or 32-bit slots, error code and restart address, the handler by the bytes of the vector or gate, the code segment by the bytes of its descriptor, and nothing else changed |
| Interrupts.HandleInterruptN | decode.c:299-325 | A pending request is delivered; afterwards none is pending, those made during delivery included |
| Interrupts.IretN | ops.c:4031-4051 | iret pops EIP, CS and flags by operand size and loads CS |
| Delivery.IretReads | ops.c:4031-4051 | iret takes EIP, CS and flags from the bytes on the stack in this order, by operand size, loads CS as the tables say, and moves the pointer past them |
| Instructions.IntRequests | ops.c:4003-4013 | int n requests the vector the code byte names, to return behind the instruction |
| Interrupts.IretsUndoInterrupts | decode.c:2067-2143 | In 16-bit real mode, k nested interrupts and then k returns restore CS, IP, SP, every other register and the low 16 flags with bit 1 set, for every k that fits the stack, every vector sequence and every vector table; on an even stack nothing is left pending |
| Strings.MovsByte | ops.c:2583-2627 | movsb, repeated or not, is that many single copies in order, and a repeated one ends with the counter at 0 |
| Strings.MovsRegs | ops.c:2583-2627 | The index registers have moved by the count in the direction of DF, modulo the address size, and no other register has changed |
| Strings.MovsCopiesOne | ops.c:2583-2627 | Without a repeat prefix one byte is copied and no other changes |
| Strings.MovsCopies | ops.c:2583-2627 | Copies that never overwrite a source byte still to be read amount to a block copy, through any wrap of the index registers, and change no other byte |
| Strings.MovsReplicates | ops.c:2583-2627 | With the destination p bytes ahead of the source, the first p bytes are repeated over the whole destination |
| Strings.RepMovsCopies | ops.c:2583-2627 | rep movsb on unwrapped ranges is a block copy forward onto a destination before or clear of the source, and backward onto one after or clear of it |
| Strings.RepMovsReplicates | ops.c:2583-2627 | rep movsb forward onto source + p repeats the first p bytes |
| Scans.ScanByte | ops.c:2701-2757 | cmpsb and scasb, repeated or not, are that many comparisons in order, stopped by counter or condition |
| Scans.ScanStopsFirst | ops.c:2701-3155 | repe and repne cmpsb and scasb stop at the first byte that ends them, with the counter, index registers and flags of that byte; if there is none the counter is 0; with counter 0 the flags stay |
| Scans.ScanRepeats | ops.c:2701-3155 | With a repeat prefix the instruction is that repeated comparison, counted by CX or ECX; with counter 0 nothing changes |
| Scans.ScanOnce | ops.c:2701-3155 | Without one it compares a single pair, whatever the counter holds: flags of that pair, index registers one step on, counter and all else unchanged |
| RunLoop.VerdictN | decode.c:192-235 | The verdicts "infinite loop" and "no code", and that they halt the run; looking at the code leaves no mark |
| Verdicts.LoopVerdictIsExact | decode.c:192-225 | The verdict "infinite loop" names exactly the jumps to the start of their own instruction or to a flag instruction right before it |
| Verdicts.JumpLandsOnTarget | ops.c:4504-4584 | And the jump does go there, cut by 16-bit operands, when its bytes can be fetched and no 16-bit pointer wraps inside the instruction |
| Verdicts.Reports | decode.c:192-235 | What a run returns: "infinite loop" for exactly those, "no code" exactly for two zero bytes in plain 16-bit code without prefixes, each only when asked for |
| Verdicts.VerdictsEndRuns | decode.c:192-258 | With either verdict the run ends after this instruction, whatever handler it has and whatever is delivered |
| RunLoop.Iterate | decode.c:85-258 | One iteration: instruction limit, prefixes, verdicts, handler, delivery, time stamp |
| Prefixes.PrefixesMean | decode.c:90-187 | Up to the opcode, the first byte that is no prefix: operand and address size switch with each 0x66 and 0x67, the last segment prefix counts, repeat prefixes add up, and the machine halts exactly if one of the bytes may not be executed or was never initialised |
| Verdicts.NothingExecuted | decode.c:186-190 | "Not executable" is reported exactly in that case; nothing is executed and EIP is that of before |
| Instructions.JumpGoes | ops.c:4504-4584 | Short and near jumps go from behind the displacement by the signed displacement in the code; 16-bit operands cut the sum |
| Dispatch.OpcodesDo | ops.c:5369-5668 | The opcodes of the table do what they stand for: where pusha, popa, enter and leave leave the pointers, which index registers the string instructions move, where int, iret and the jumps go, which flag the flag instructions change |
| RunLoop.CarryInstructions | ops.c:5026-5044 | clc and stc |
| RunLoop.InterruptInstructions | ops.c:5050-5068 | cli and sti |
| RunLoop.DirectionInstructions | ops.c:5074-5092 | cld and std |
| Prefixes.PrefixLoopIsExact | decode.c:135-187 | The prefix loop ends if and only if it ends within 2^32 - 1 prefixes, and every budget within which it ends gives the same opcode and state |
| RunLoop.Run | decode.c:59-284 | Under an instruction limit the loop terminates, its executed instructions form a chain of turns, and it ends for the limit exactly when the stamp reaches it |
| RunLoop.RunFirst | decode.c:59-284 | The first iterations of a run, as many as one likes, with any flags and with or without a limit, form such a chain |
| RunLoop.RunsTick | decode.c:255 | Over every run the time stamp grows by the number of executed instructions, modulo 2^64 |
| RunLoop.RunsStayBelowLimit | decode.c:85-258 | Under an instruction limit it never passes the limit |
| RunLoop.RunsToLimit | decode.c:107-114 | And it ends for the limit exactly when the stamp has reached it, after limit - TSC instructions; at once when the stamp had passed it before |
| RunLoop.RunsDeliverOnce | decode.c:239-335 | Over every run each instruction delivers at most one request, and none is pending at the next |
| Requests.HandlersQueue | decode.c:328-335 | Whatever a handler requests is added to the earlier requests, and the first of all stays pending |
| Requests.FirstIsDelivered | decode.c:237-335 | An iteration delivers what was pending before it, else the first request its handler made, and that one only |
| Requests.RunsDeliverFirst | decode.c:85-335 | Over every run, from the second instruction on, what is delivered is the first request of that instruction's own handler |
| EndlessLoop.VerdictTurn | decode.c:192-237 | The iteration that finds the loop still executes the jump, halts the run, and ends inside the loop |
| EndlessLoop.LoopVerdictIsSound | decode.c:192-225 | From there, or from any other state inside the loop, k further iterations, for every k, execute jumps and flag instructions only and leave EIP at the jump or one byte before it |
| EndlessLoop.RunsStayInLoop | ops.c:4504-4584 | No instruction of any run that starts inside the loop, of any length and with any flags, leaves it |
| EndlessLoop.VerdictRunsStay | decode.c:192-258 | A run that ends with the verdict "infinite loop", continued with any flags and for any length, stays at the jump or one byte before it |

## Findings

Where code and natural expectation part, the model follows the code and states the exact condition.

- A permission update from address 0 that reaches past page 0 stops after page 0 (`mem.c:275`):
  `PermRanges.SetPermIsExact`, with the concrete range [0, 0x1000] in `PermRanges.FirstPageOnly`. An update that
  ends at the top of memory brings page 0 into being (`mem.c:286`), which only the reset can notice.
- The reset of the access statistics passes over pages that do not exist yet (`mem.c:159-180`), so marks in a
  default attribute survive it: `PagedMemory.Mem.ResetAccessStats`, `MemoryTraces.DirtyDefaultSurvivesReset`.
- The library's own README (line 181) gives a denied read as an example of the invalid mark. The code leaves the
  mark for denied writes and for uses of bytes never written; a denied read or fetch only raises the error
  (`mem.c:319-340`, `MemoryTraces.FoldMeaning`, `MemoryTraces.DeniedReadUnmarked`).
- enter saves the frame pointer by stack size, leave pops it by operand size (`ops.c:3853-3860`):
  `EnterLeave.LeaveNeedsMatch`, `EnterLeave.LeaveFails`.
- popa skips the saved stack pointer by operand size (`ops.c:1178`, `ops.c:1190`); with a different stack size it
  breaks when that skip crosses 64K: `Frames.PopaUndoesPusha`, with a concrete pointer in `Frames.PopaFails`.
- rcl_long by 32 uses an undefined shift whose result is not masked away (`prim_ops.c:934`), and the shift count of
  an instruction reaches it unmasked (`ops.c:3600-3602`): `Rotates.RclIsExact`, with a concrete operand in
  `Rotates.RclFullFails`.
- idiv of the minimum dividend by -1 is an undefined division at word and long width (`prim_ops.c:2189`,
  `prim_ops.c:2213`): `MulDiv.IdivIsSure`, `MulDiv.IdivFails`.

## Left out

- MemIo: the port accesses of the same function (`mem.c:818-844`), which go to the host.
- Idiv: where C's division is undefined it is taken to yield some quotient and remainder; a processor trap of the
  host in that place is not modelled.
- Rcl: the 16-bit form is taken with a shift in unsigned arithmetic, where C shifts a promoted int.
- Run: termination is stated for runs with an instruction limit, which is what bounds the loop; runs without one may
  not end, and are covered through `RunFirst` and `Chain`, of any length.
- Iterate: a `budget` bounds the prefixes of one instruction, since the prefix loop of the code need not end; an
  iteration that uses it up is reported as hung. `Prefixes.PrefixLoopIsExact` says which budgets lose nothing. The
  timeout and the `code_check` callback are not modelled.
- Unmodelled: the handlers this model does not have (ModRM instructions, moves, shifts, word and long string forms,
  and the two-byte opcodes) may do anything but write the time stamp, move the start address of the instruction,
  take back a request, or take back a halt.
- LoopVerdictIsSound: asks that the bytes of the loop can be executed, nothing is pending, no 16-bit instruction
  pointer wraps inside an instruction, and a 16-bit jump target is in reach; else the next fetch halts or leaves the
  loop.
- IretsUndoInterrupts: real mode with 16-bit code, operands and stack; protected-mode delivery is modelled, and
  `Delivery.Delivers` says what it does, but it is not undone.
- EnterStores: for an entry of the caller's display that the copy has overwritten by the time it reads it, only the
  case BP = SP is spelled out (`CopyOverwritten`).
- RunOps: no handler in place of the default one, and no trace callbacks.
- Wall-clock timeout, `code_check`, `interrupt`, cpuid and MSR callbacks of the host, port I/O and IOPL, the host's
  time stamp counter, logging, tracing, disassembly and dumps.
- Failing allocation and big-endian hosts.
- The ModRM and SIB tables, SSE, and the handlers for control, debug and model-specific registers.
- Freeing memory (`mem.c:97-122`).
