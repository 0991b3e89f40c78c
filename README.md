# xv6-riscv extensions: trap-and-emulate, copy-on-write, heap paging, user threads, boot ELF

This project is a Dafny model of five pieces of an extended xv6-riscv kernel, together with proofs about that model.

- **Trap-and-emulate layer** (`trap-and-emulate.c`). A guest kernel runs in user mode. Each privileged instruction it executes traps, and the layer emulates it on the global `vm_state` record:
  - 35 virtual CSRs, each with a number, a minimum mode and a value;
  - the current virtual mode (0 = U, 1 = S, 2 = M);
  - the PMP flag;
  - the shadow and restricted page tables.

  It decodes the instruction, emulates ECALL, SRET and MRET, mediates CSR reads and writes by mode, and rebuilds a PMP-restricted page table on MRET.
- **Copy-on-write groups and fork copy** (`cow.c`). This is the global group table:
  - group id;
  - shared-page list (read up to its first 0 entry);
  - process count.

  Also modelled is `uvmcopy_cow`, which maps the parent's valid pages read-only into the child and records them in the group.
- **Heap paging** (`pfault.c`).
  - The swap-area block tracker.
  - FIFO eviction of the oldest resident heap page to the four blocks starting at the first free one. When no block is free this is block 0, and the four blocks are marked used without checking them, so the page stored there is overwritten.
  - Retrieval of a page from disk.
  - The heap path of the page-fault handler, with its resident-page counter and load-time stamps.
- **User-level threads** (`ulthread.c`). The fixed table of 100 thread slots, with create, destroy and yield. Also the three selection passes of the scheduler: FCFS, round-robin and priority.
- **Boot ELF lookup** (`elf.c`). Where the bootloader reads the kernel's ELF header, the load address taken from the second program header, the image size and the entry point.

Each piece has two layers.

- **Specification functions on values.** Datatypes for the state, and functions that state what each operation does. Modules: `Privilege`, `ShadowTables`, `Decode`, `VmRegs`, `PageTable`, `CowGroups`, `CowCopy`, `SwapSpec`, `ThreadSpec`, `ElfLoader`.
- **Imperative layer.** It runs the same operations as the source does: classes whose fields and arrays the methods update in place, and loops with invariants. Modules: `TrapEmulate`, `CowGroups.CowTable`, `CowFork`, `Pager`, `ThreadLib`, `ElfLoader.Loader`.

Every method is proved to leave the state the specification function computes from the old state. The properties the code promises are proved as lemmas about those functions.

Page tables are finite maps from a virtual address to its leaf entry `(pa, flags)`. A key that is present stands for a PTE slot that `walk` finds. `mappages`, `uvmunmap(.., 1, 0)` and `proc_pagetable` become map operations and parameters.

Where the code departs from the RISC-V Privileged Architecture, the model follows the code:
- the status updates of SRET and MRET only ever set bits;
- the status ECALL computes is never stored;
- a failed CSR access still advances `epc` by 4.

## Model

| member | source | states |
|---|---|---|
| VmRegs.InitRegs | assignment4/src/xv6-riscv/kernel/trap-and-emulate.c:384-435 | the reset file has the 35 declared registers, in declaration order |
| VmRegs.SlotOfCode | assignment4/src/xv6-riscv/kernel/trap-and-emulate.c:388-435 | each declared CSR number maps back to its own slot |
| VmRegs.CodesDistinct | assignment4/src/xv6-riscv/kernel/trap-and-emulate.c:388-435 | no two registers share a CSR number |
| VmRegs.InitLayout | assignment4/src/xv6-riscv/kernel/trap-and-emulate.c:384-435 | the reset file has the declared numbers and modes: S registers mode 1, M registers mode 2, PMP registers mode 0 |
| VmRegs.FindFrom | assignment4/src/xv6-riscv/kernel/trap-and-emulate.c:136-142 | the scan returns the first matching slot at or after `from`, or none when no later slot matches |
| VmRegs.FindReg | assignment4/src/xv6-riscv/kernel/trap-and-emulate.c:133-143 | get_vm_reg returns the first register with that number, or NULL exactly when none has it |
| VmRegs.FindRegUnique | assignment4/src/xv6-riscv/kernel/trap-and-emulate.c:133-143 | on the declared layout, the lookup finds slot i if and only if slot i has the number |
| VmRegs.FindKnown | assignment4/src/xv6-riscv/kernel/trap-and-emulate.c:133-143 | a declared number is always found, at its own slot |
| VmRegs.FindAfterWrite | assignment4/src/xv6-riscv/kernel/trap-and-emulate.c:292-293 | storing a value moves no register, so every lookup is unchanged |
| Decode.EncodeDecode | assignment4/src/xv6-riscv/kernel/trap-and-emulate.c:336-340 | op, rd, funct3, rs1 and uimm (bits 0-6, 7-11, 12-14, 15-19, 20-31) cover the whole word: re-encoding the fields gives the word back |
| Decode.DecodeEncode | assignment4/src/xv6-riscv/kernel/trap-and-emulate.c:336-340 | every combination of field values is decoded from its encoding |
| Decode.Classify | assignment4/src/xv6-riscv/kernel/trap-and-emulate.c:342-378 | dispatch, as if-and-only-ifs: funct3 0 with uimm 0x102 is SRET, with 0x302 is MRET, otherwise ECALL; funct3 1 is a CSR write of rs1 to uimm; funct3 2 is a CSR read of uimm into rd; any other funct3 is ignored |
| Decode.ClassifyEncode | assignment4/src/xv6-riscv/kernel/trap-and-emulate.c:342-378 | the standard encodings of sret, mret, ecall, csrw and csrr are dispatched as what they encode |
| PageTable.MapPage | assignment4/src/xv6-riscv/kernel/trap-and-emulate.c:128 | mappages of one page installs (pa, flags with PTE_V) at va and leaves every other entry as it was |
| PageTable.UnmapPage | assignment4/src/xv6-riscv/kernel/trap-and-emulate.c:105 | uvmunmap without freeing zeroes the entry at va (it is then invalid), keeps every other entry and adds or removes no slot |
| ShadowTables.ShadowAt | assignment4/src/xv6-riscv/kernel/trap-and-emulate.c:326-330 | the shadow table holds exactly the guest's entries on [0, sz) and on [0x80000000, 0x80400000), and the base table's entries elsewhere |
| ShadowTables.ShadowCovers | assignment4/src/xv6-riscv/kernel/trap-and-emulate.c:112-130 | when the guest has a valid entry on every page of both ranges, so does its shadow |
| ShadowTables.PermIsByte | assignment4/src/xv6-riscv/kernel/trap-and-emulate.c:258-259 | the RWX bits of entry i are `((pmpcfg0 >> 8i) & 0xFF) & 0x07` |
| ShadowTables.ActiveCount | assignment4/src/xv6-riscv/kernel/trap-and-emulate.c:254-257 | the rebuild handles pmpaddr0.. up to, and not including, the first that is 0 |
| ShadowTables.RestrictionsAre | assignment4/src/xv6-riscv/kernel/trap-and-emulate.c:254-269 | a region is restricted if and only if it is region i of a handled register whose RWX bits are not 7; region i runs from 0x80000000 (i = 0) or pmpaddr[i-1] << 2, up to pmpaddr[i] << 2 |
| ShadowTables.RestrictAllAt | assignment4/src/xv6-riscv/kernel/trap-and-emulate.c:103-107 | unmapping a list of regions keeps the slots and zeroes exactly the pages that lie on one of the regions |
| ShadowTables.RestrictStep | assignment4/src/xv6-riscv/kernel/trap-and-emulate.c:254-269 | one more register unmaps its region when its RWX bits are not 7, and nothing otherwise |
| ShadowTables.PmpTableAt | assignment4/src/xv6-riscv/kernel/trap-and-emulate.c:244-283 | a page of the restricted table is zeroed if and only if it lies in a restricted region; every other page keeps the shadow's entry |
| ShadowTables.PmpTableUnrestricted | assignment4/src/xv6-riscv/kernel/trap-and-emulate.c:254-269 | with pmpaddr0 unset, or every entry RWX, the restricted table is the shadow itself |
| Privilege.KillWellFormed | assignment4/src/xv6-riscv/kernel/trap-and-emulate.c:190-193 | the state after a kill and reset has the declared register layout again |
| Privilege.SetValWellFormed | assignment4/src/xv6-riscv/kernel/trap-and-emulate.c:292-293 | storing a register value keeps the layout and every lookup |
| Privilege.PmpRebuildKeeps | assignment4/src/xv6-riscv/kernel/trap-and-emulate.c:244-284 | the PMP rebuild changes only the restricted table and the live page table; registers, mode, flag, shadow table, epc, general registers, killed and sz are kept |
| PrivilegeProps.SretStatusBits | assignment4/src/xv6-riscv/kernel/trap-and-emulate.c:201-210 | new sstatus: no bit is cleared, SPIE becomes 1, SIE becomes SIE or SPIE, bits other than 1 and 5 are kept, SPP is kept |
| PrivilegeProps.MretStatusBits | assignment4/src/xv6-riscv/kernel/trap-and-emulate.c:225-235 | new mstatus: no bit is cleared, MPIE becomes 1, MIE becomes MIE or MPIE, bits other than 3 and 7 are kept, MPP is kept |
| PrivilegeProps.KillResets | assignment4/src/xv6-riscv/kernel/trap-and-emulate.c:384-442 | a violation marks the process killed and resets every register to its init value; mode is 2, the PMP flag is clear, both tables are NULL; epc and registers are kept |
| PrivilegeProps.EcallTransitions | assignment4/src/xv6-riscv/kernel/trap-and-emulate.c:156-194 | from U: sepc := epc, mode S, epc := stvec. From S: mepc := epc, mode M, epc := mtvec, pagetable := the shadow table. From M: kill and reset. In U and S every other register, the PMP flag, both stored tables, the general registers, the size and the killed flag are kept |
| PrivilegeProps.SretTransitions | assignment4/src/xv6-riscv/kernel/trap-and-emulate.c:196-218 | in S: the mode becomes U if and only if SPP is 0, epc := sepc, and sstatus gets the OR update; every other register, the PMP flag, both stored tables, the live table, the general registers and sz are kept. Elsewhere: pagetable := the shadow table, then kill and reset |
| PrivilegeProps.MretFromMachine | assignment4/src/xv6-riscv/kernel/trap-and-emulate.c:220-239 | in M: the mode becomes MPP when MPP < 2 and stays M otherwise; epc := mepc; mstatus gets the OR update; every other register, the PMP flag, the shadow table, the general registers and sz are kept, and with the flag clear so are the live and restricted tables |
| PrivilegeProps.MretBelowMachine | assignment4/src/xv6-riscv/kernel/trap-and-emulate.c:240-244 | below M, MRET kills and resets; since the reset clears the flag, no PMP table is installed |
| PrivilegeProps.MretInstallsPmpTable | assignment4/src/xv6-riscv/kernel/trap-and-emulate.c:244-283 | with the flag set, a valid MRET makes the restricted table (built from pmpaddr and pmpcfg0) the live one |
| PrivilegeProps.CsrWriteStores | assignment4/src/xv6-riscv/kernel/trap-and-emulate.c:287-303 | a permitted write stores x[rs1] in that register only; mode, other registers, killed flag, both stored tables, the live table and the size are kept; the PMP flag becomes set exactly when it was or the CSR is a PMP register; epc advances by 4 |
| PrivilegeProps.CsrReadLoads | assignment4/src/xv6-riscv/kernel/trap-and-emulate.c:305-320 | a permitted read copies the value into x[rd] only and advances epc by 4; the register file, the live table, sz and the killed flag are kept |
| PrivilegeProps.CsrWriteThenRead | assignment4/src/xv6-riscv/kernel/trap-and-emulate.c:287-321 | a permitted write followed by a read of the same CSR at the same mode returns the value written |
| PrivilegeProps.CsrWriteDenied | assignment4/src/xv6-riscv/kernel/trap-and-emulate.c:292-298 | a write to an unknown CSR, or one the mode may not access, kills and resets, then still advances epc by 4 |
| PrivilegeProps.CsrWriteAlwaysSteps | assignment4/src/xv6-riscv/kernel/trap-and-emulate.c:299-302 | every write advances epc by exactly 4, and a write to 0x3a0 or 0x3b0-0x3b3 always leaves the PMP flag set, even after a violation |
| PrivilegeProps.CsrReadDenied | assignment4/src/xv6-riscv/kernel/trap-and-emulate.c:309-319 | a read the mode may not make kills and resets, then advances epc by 4 |
| PrivilegeProps.EcallSretRoundTrip | assignment4/src/xv6-riscv/kernel/trap-and-emulate.c:156-218 | ECALL from U then SRET with SPP 0 returns to U at the stored sepc |
| PrivilegeProps.EcallMretRoundTrip | assignment4/src/xv6-riscv/kernel/trap-and-emulate.c:173-239 | ECALL from S then MRET returns to the mode MPP names (S when MPP is 1), at the stored mepc |
| PrivilegeProps.ShadowBuiltOnce | assignment4/src/xv6-riscv/kernel/trap-and-emulate.c:326-330 | trap entry builds the shadow table when there is none and a table is live; a second entry changes nothing. Every operation keeps the shadow table unless it resets the record (where a write to a PMP register leaves only the flag set) |
| PrivilegeProps.IgnoredInstruction | assignment4/src/xv6-riscv/kernel/trap-and-emulate.c:342-378 | an instruction with funct3 > 2 changes nothing beyond the trap-entry shadow build |
| PrivilegeProps.StepKeepsWellFormed | assignment4/src/xv6-riscv/kernel/trap-and-emulate.c:156-321 | every handler keeps the declared register layout |
| TrapEmulate.CopyPagetableRegion | assignment4/src/xv6-riscv/kernel/trap-and-emulate.c:112-130 | on a source with a valid entry on every page of [start, end), the destination gains exactly those entries, with the same pa and flags |
| TrapEmulate.ApplyPmpRestrictions | assignment4/src/xv6-riscv/kernel/trap-and-emulate.c:103-107 | every page of [start, end) with a slot is zeroed; nothing else changes |
| TrapEmulate.BuildShadow | assignment4/src/xv6-riscv/kernel/trap-and-emulate.c:326-330 | proc_pagetable's table plus the copies of [0, sz) and the kernel window is the shadow |
| TrapEmulate.RestrictByPmp | assignment4/src/xv6-riscv/kernel/trap-and-emulate.c:252-278 | the loop over pmpaddr0..3 unmaps exactly the restricted regions, stopping at the first unset register |
| TrapEmulate.VmState.Init | assignment4/src/xv6-riscv/kernel/trap-and-emulate.c:384-442 | trap_and_emulate_init leaves the init record |
| TrapEmulate.VmState.GetVmReg | assignment4/src/xv6-riscv/kernel/trap-and-emulate.c:133-143 | the scan returns the lookup's slot, or none |
| TrapEmulate.VmState.KillGuest | assignment4/src/xv6-riscv/kernel/trap-and-emulate.c:190-193 | setkilled then init, as Kill |
| TrapEmulate.VmState.HandleEcall | assignment4/src/xv6-riscv/kernel/trap-and-emulate.c:156-194 | the handler leaves the state Ecall gives |
| TrapEmulate.VmState.TrapToSupervisor | assignment4/src/xv6-riscv/kernel/trap-and-emulate.c:157-172 | the U branch of handle_ecall, as Ecall |
| TrapEmulate.VmState.TrapToMachine | assignment4/src/xv6-riscv/kernel/trap-and-emulate.c:173-189 | the S branch of handle_ecall, as Ecall |
| TrapEmulate.VmState.HandleSret | assignment4/src/xv6-riscv/kernel/trap-and-emulate.c:196-218 | the handler leaves the state Sret gives |
| TrapEmulate.VmState.HandleMret | assignment4/src/xv6-riscv/kernel/trap-and-emulate.c:220-285 | the handler leaves the state Mret gives: return, then the PMP rebuild |
| TrapEmulate.VmState.ReturnFromMachine | assignment4/src/xv6-riscv/kernel/trap-and-emulate.c:220-243 | the mode and status part of handle_mret, as MretReturn |
| TrapEmulate.VmState.RebuildPmpTable | assignment4/src/xv6-riscv/kernel/trap-and-emulate.c:244-284 | the PMP part of handle_mret, as PmpRebuild |
| TrapEmulate.VmState.HandleCsrw | assignment4/src/xv6-riscv/kernel/trap-and-emulate.c:287-304 | the handler leaves the state CsrWrite gives |
| TrapEmulate.VmState.HandleCsrr | assignment4/src/xv6-riscv/kernel/trap-and-emulate.c:305-321 | the handler leaves the state CsrRead gives |
| TrapEmulate.VmState.SwitchPageTable | assignment4/src/xv6-riscv/kernel/trap-and-emulate.c:99-101 | the shadow table becomes the live one; nothing else of the process changes |
| TrapEmulate.VmState.TrapAndEmulate | assignment4/src/xv6-riscv/kernel/trap-and-emulate.c:323-381 | one trap: the shadow build on the first trap, decode, dispatch, as Privilege.TrapAndEmulate |
| CowGroups.FirstWith | assignment2/src/xv6-riscv/kernel/cow.c:28-31 | the first slot at or after `from` with the id, or none when no later slot has it |
| CowGroups.FindGroup | assignment2/src/xv6-riscv/kernel/cow.c:24-33 | none for -1; otherwise the first slot with the id, and none only when no slot has it |
| CowGroups.FirstZero | assignment2/src/xv6-riscv/kernel/cow.c:75-77 | the used part of a list: nonzero entries before it, a 0 (or the end) at it |
| CowGroups.ShmemAdd | assignment2/src/xv6-riscv/kernel/cow.c:54-68 | add_shmem on one list keeps its length; a page already listed (or 0) changes nothing, otherwise pa takes the first 0 entry |
| CowGroups.InitClaimsNothing | assignment2/src/xv6-riscv/kernel/cow.c:35-42 | after cow_init no id is 0, so cow_group_init changes nothing and no group is found |
| CowGroups.ClaimThenFind | assignment2/src/xv6-riscv/kernel/cow.c:35-42 | a claim takes the first slot with id 0 and no other: lookup of the new id then finds that slot |
| CowGroups.ClaimFreeThenFind | assignment2/src/xv6-riscv/kernel/cow.c:35-42 | the corrected claim (first slot with id -1, the id cow_init gives free slots) makes a new id found in that slot, changes no other slot, and right after cow_init takes slot 0 |
| CowGroups.BumpKeepsGroups | assignment2/src/xv6-riscv/kernel/cow.c:44-52 | incr/decr change only the matched group's count, by +1/-1; every lookup is unchanged; decr undoes incr |
| CowGroups.AddThenListed | assignment2/src/xv6-riscv/kernel/cow.c:54-82 | on a packed list (distinct pages, then zeros) add_shmem keeps it packed, and afterwards is_shmem holds for q if and only if q was listed before or q = pa ≠ 0 |
| CowGroups.ZerosPacked | assignment2/src/xv6-riscv/kernel/cow.c:88-89 | a zeroed list is packed and records nothing |
| CowGroups.CowTable.CowInit | assignment2/src/xv6-riscv/kernel/cow.c:84-92 | every slot gets count 0, id -1 and an all-zero list |
| CowGroups.CowTable.GetCowGroup | assignment2/src/xv6-riscv/kernel/cow.c:24-33 | the scan returns FindGroup |
| CowGroups.CowTable.CowGroupInit | assignment2/src/xv6-riscv/kernel/cow.c:35-42 | the table becomes Claim of the old table |
| CowGroups.CowTable.GetCowGroupCount | assignment2/src/xv6-riscv/kernel/cow.c:44-46 | the count of the group's slot |
| CowGroups.CowTable.IncrCowGroupCount | assignment2/src/xv6-riscv/kernel/cow.c:47-49 | the table becomes Bump(old, g, +1) |
| CowGroups.CowTable.DecrCowGroupCount | assignment2/src/xv6-riscv/kernel/cow.c:50-52 | the table becomes Bump(old, g, -1) |
| CowGroups.CowTable.AddShmem | assignment2/src/xv6-riscv/kernel/cow.c:54-68 | nothing changes for group -1; otherwise only the group's list changes, to ShmemAdd of it |
| CowGroups.CowTable.IsShmem | assignment2/src/xv6-riscv/kernel/cow.c:70-82 | returns 1 if and only if the group is not -1 and its list records pa, and 0 otherwise |
| CowCopy.SkipStep | assignment2/src/xv6-riscv/kernel/cow.c:105-106 | an invalid page adds nothing to either table or to the recorded pages |
| CowCopy.ClearWStep | assignment2/src/xv6-riscv/kernel/cow.c:113 | a valid page adds its entry with PTE_W cleared to the parent's closed form |
| CowCopy.SharedStep | assignment2/src/xv6-riscv/kernel/cow.c:107-110 | a valid page adds its read-only entry to the child's closed form |
| CowCopy.RecordedStep | assignment2/src/xv6-riscv/kernel/cow.c:114 | a valid page adds its nonzero pa to the recorded pages |
| CowCopy.RunMeaning | assignment2/src/xv6-riscv/kernel/cow.c:102-115 | after n iterations, both tables, the list and the failure point are those the closed forms give for [0, n·PGSIZE) |
| CowCopy.StepMeaning | assignment2/src/xv6-riscv/kernel/cow.c:102-115 | one iteration moves that meaning one page on |
| CowCopy.CopyMeaning | assignment2/src/xv6-riscv/kernel/cow.c:107-114 | the copy of a valid page moves that meaning one page on |
| CowCopy.RunPrefix | assignment2/src/xv6-riscv/kernel/cow.c:102-104 | a walk that completes for m pages completes for every shorter prefix |
| CowCopy.FailedStays | assignment2/src/xv6-riscv/kernel/cow.c:110-111 | after a failed mapping the walk changes nothing more |
| CowCopy.PagesGrid | assignment2/src/xv6-riscv/kernel/cow.c:102 | the pages the loop visits are exactly the page-aligned addresses below sz |
| CowCopy.UvmCopyCowMeaning | assignment2/src/xv6-riscv/kernel/cow.c:94-120 | the result is 0 or -1, and 0 if and only if no valid page below sz fails to map. With 0: the parent's valid pages lose PTE_W, the child gains exactly them read-only, and, when recording, the list records exactly its old pages plus every nonzero page copied; when not recording, the list is unchanged. With -1: the same holds below the first failing page f, and the child's pages below f are unmapped again |
| CowFork.RecordPage | assignment2/src/xv6-riscv/kernel/cow.c:114 | add_shmem(p->cow_group, pa) replaces the caller's list by ShmemAdd of it, or nothing for group -1 |
| CowFork.VisitPage | assignment2/src/xv6-riscv/kernel/cow.c:103-114 | one loop iteration has the effect StepPage gives |
| CowFork.UvmCopyCowIn | assignment2/src/xv6-riscv/kernel/cow.c:94-120 | the status, both tables and the caller's list are those of UvmCopyCow; the rest of the group table is untouched |
| SwapSpec.FreeFrom | assignment2/src/xv6-riscv/kernel/pfault.c:40-45 | the first free block in [from, limit), or none when all of them are used |
| SwapSpec.MarkBlocks | assignment2/src/xv6-riscv/kernel/pfault.c:57-60 | blocks b..b+3 get the flag, and every other block keeps its flag |
| SwapSpec.VictimUpTo | assignment2/src/xv6-riscv/kernel/pfault.c:49-56 | the victim is an entry in memory, and there is none if and only if every entry is on disk |
| SwapSpec.VictimOldest | assignment2/src/xv6-riscv/kernel/pfault.c:52-53 | the victim has the smallest load time of the entries in memory, and each such entry before it is strictly later, so the lowest index wins ties |
| SwapSpec.LastOnDisk | assignment2/src/xv6-riscv/kernel/pfault.c:109-116 | the last entry holding uvaddr on disk, or none when no entry does |
| SwapSpec.Reload | assignment2/src/xv6-riscv/kernel/pfault.c:111-114 | every entry holding uvaddr on disk comes back to memory; the other entries and fields are kept |
| SwapSpec.HeapIndex | assignment2/src/xv6-riscv/kernel/pfault.c:167-176 | the first heap entry for the page, or none when no entry holds it |
| SwapSpec.Stamp | assignment2/src/xv6-riscv/kernel/pfault.c:265-271 | every entry for the page gets load time now, and every other entry is kept |
| SwapSpec.PageOfAligned | assignment2/src/xv6-riscv/kernel/pfault.c:164 | the fault's page is page-aligned and holds the faulting address |
| SwapSpec.RetrieveMissed | assignment2/src/xv6-riscv/kernel/pfault.c:108-118 | retrieving a page that is not on disk changes nothing |
| SwapSpec.EvictThenRetrieve | assignment2/src/xv6-riscv/kernel/pfault.c:37-149 | evicting the victim and then retrieving it restores the block tracker and the heap tracker, except the victim's startblock. This needs its four blocks to have been free and no other entry to hold it on disk |
| SwapSpec.HeapFaultBounded | assignment2/src/xv6-riscv/kernel/pfault.c:240-281 | the heap path never lets the resident count pass MAXRESHEAP, and raises it by one below the limit |
| SwapSpec.MoveKeepsTimes | assignment2/src/xv6-riscv/kernel/pfault.c:240-260 | eviction and retrieval change no address and no load time |
| SwapSpec.HeapFaultStamps | assignment2/src/xv6-riscv/kernel/pfault.c:265-271 | after the heap path every entry for the page has load time now, and every other entry keeps its own |
| Pager.InitPsaRegions | assignment2/src/xv6-riscv/kernel/pfault.c:30-34 | every swap block is free |
| Pager.FindFreeBlock | assignment2/src/xv6-riscv/kernel/pfault.c:39-46 | the first free block below PSASIZE-PSASTART, or 0 when there is none |
| Pager.FindVictim | assignment2/src/xv6-riscv/kernel/pfault.c:49-56 | the scan returns Victim, or -1 when every page is on disk |
| Pager.SetBlocks | assignment2/src/xv6-riscv/kernel/pfault.c:57-60 | the tracker becomes MarkBlocks of the old one |
| Pager.EvictPageToDisk | assignment2/src/xv6-riscv/kernel/pfault.c:37-68 | blocks b..b+3 become used, the victim gets loaded = 1 and startblock = b, and no other entry changes (Evict) |
| Pager.ReloadEntries | assignment2/src/xv6-riscv/kernel/pfault.c:108-116 | the scan returns the last matching startblock (or -1) and leaves Reload of the tracker |
| Pager.RetrievePageFromDisk | assignment2/src/xv6-riscv/kernel/pfault.c:106-149 | the page's entries come back and its four blocks are freed; with no match, nothing but a no-op (Retrieve) |
| Pager.FindHeapIndex | assignment2/src/xv6-riscv/kernel/pfault.c:167-176 | the scan returns HeapIndex, or -1 |
| Pager.StampEntries | assignment2/src/xv6-riscv/kernel/pfault.c:265-271 | the tracker becomes Stamp of the old one |
| Pager.MakeRoomIn | assignment2/src/xv6-riscv/kernel/pfault.c:240-243 | at MAXRESHEAP, evict and count one page out; otherwise nothing |
| Pager.BringPageIn | assignment2/src/xv6-riscv/kernel/pfault.c:246-260 | a page on disk is retrieved; otherwise sz takes uvmalloc's result |
| Pager.HeapHandle | assignment2/src/xv6-riscv/kernel/pfault.c:235-281 | the heap path leaves HeapFault of the old state |
| Pager.PageFaultHandler | assignment2/src/xv6-riscv/kernel/pfault.c:152-288 | the heap path is taken if and only if a heap entry holds the aligned page, and then leaves HeapFault; otherwise the paging state is unchanged |
| ThreadSpec.Init | assignment3/src/xv6-riscv/user/ulthread.c:24-37 | every slot becomes FREE with tid, priority, start, sp and time -1; main tid 0, count 0, the given algorithm |
| ThreadSpec.FirstFree | assignment3/src/xv6-riscv/user/ulthread.c:42-56 | the first FREE slot, or none when every slot is in use |
| ThreadSpec.FirstTid | assignment3/src/xv6-riscv/user/ulthread.c:168-180 | the first slot with the tid, or none when no slot has it |
| ThreadSpec.FirstRunnable | assignment3/src/xv6-riscv/user/ulthread.c:82-90 | the first RUNNABLE slot, or none when there is none |
| ThreadSpec.LiveNone | assignment3/src/xv6-riscv/user/ulthread.c:17 | the table counts no thread if and only if every slot is FREE |
| ThreadSpec.LiveFull | assignment3/src/xv6-riscv/user/ulthread.c:42-56 | the table counts every slot if and only if no slot is FREE |
| ThreadSpec.InitValid | assignment3/src/xv6-riscv/user/ulthread.c:17-37 | init on a fresh library leaves a valid, empty table (thread_count - 1 = slots in use = 0) |
| ThreadSpec.CreateValid | assignment3/src/xv6-riscv/user/ulthread.c:40-73 | on a valid table, a free slot exists if and only if thread_count ≤ 100; creation keeps the table valid (thread_count - 1 = slots in use) |
| ThreadSpec.DestroyValid | assignment3/src/xv6-riscv/user/ulthread.c:165-181 | destroy resets the first slot with the current tid, at or before the current one; one fewer slot is in use and the table stays valid |
| ThreadSpec.CreateTwice | assignment3/src/xv6-riscv/user/ulthread.c:47-69 | two creations with no destroy between take different slots and get consecutive tids |
| ThreadSpec.IdReused | assignment3/src/xv6-riscv/user/ulthread.c:40-181 | create, create, destroy the first, create: two live threads then share tid 2, and destroying the one in slot 1 frees slot 0 instead |
| ThreadSpec.CreateFreshDistinct | assignment3/src/xv6-riscv/user/ulthread.c:40-70 | the corrected creation, with the id taken from a counter that destruction does not lower, keeps the table valid and the ids of slots in use distinct, and the new thread carries the counter's value |
| ThreadSpec.DestroyFreesCurrent | assignment3/src/xv6-riscv/user/ulthread.c:165-181 | with distinct ids, destroy resets exactly the current thread's own slot and changes no other slot |
| ThreadSpec.EarliestIsOldest | assignment3/src/xv6-riscv/user/ulthread.c:92-120 | the FCFS/round-robin pass ends on a thread whose time is ≤ every RUNNABLE thread's; when it moved, every RUNNABLE thread before it is strictly later, so the earlier slot wins ties |
| ThreadSpec.HighestIsPreferred | assignment3/src/xv6-riscv/user/ulthread.c:121-138 | the priority pass ends on the start or on a RUNNABLE thread other than the last yielded. It leaves the last yielded whenever another RUNNABLE thread exists, and then has the highest priority among them, with the later slot winning ties |
| ThreadSpec.LastYieldedTid | assignment3/src/xv6-riscv/user/ulthread.c:128-133 | the id the priority pass compares against is that of the last yielded thread whenever one is recorded |
| ThreadSpec.ScheduleChoice | assignment3/src/xv6-riscv/user/ulthread.c:77-140 | a round changes only current, which becomes the earliest RUNNABLE thread (FCFS, round-robin) or the preferred one (priority) |
| ThreadSpec.YieldKeeps | assignment3/src/xv6-riscv/user/ulthread.c:154-158 | yield keeps the table valid and records the current thread as last yielded; outside FCFS only its time changes, to now; under FCFS nothing changes |
| ThreadLib.Library.constructor | assignment3/src/xv6-riscv/user/ulthread.c:12-17 | the globals as the program starts: every slot zeroed (tid 0, priority 0, FREE), thread_count 1, no current and no last-yielded thread |
| ThreadLib.Library.UlthreadInit | assignment3/src/xv6-riscv/user/ulthread.c:24-37 | the library becomes Init of the old one |
| ThreadLib.Library.UlthreadCreate | assignment3/src/xv6-riscv/user/ulthread.c:40-73 | returns false and the library becomes Create of the old one |
| ThreadLib.Library.UlthreadDestroy | assignment3/src/xv6-riscv/user/ulthread.c:165-181 | the library becomes Destroy of the old one |
| ThreadLib.Library.UlthreadYield | assignment3/src/xv6-riscv/user/ulthread.c:154-158 | the library becomes Yield of the old one |
| ThreadLib.Library.PickFirst | assignment3/src/xv6-riscv/user/ulthread.c:80-91 | with no current thread, the first RUNNABLE one becomes current |
| ThreadLib.Library.EarliestPass | assignment3/src/xv6-riscv/user/ulthread.c:92-120 | current becomes the choice of EarliestUpTo over the whole table |
| ThreadLib.Library.HighestPass | assignment3/src/xv6-riscv/user/ulthread.c:121-138 | current becomes the choice of HighestUpTo over the whole table |
| ThreadLib.Library.ScheduleRound | assignment3/src/xv6-riscv/user/ulthread.c:77-140 | the library becomes Schedule of the old one |
| ElfLoader.HeaderBase | assignment1/src/xv6-riscv/bootloader/elf.c:18-24 | the header is read at RAMDISK for NORMAL and at 0x84500000 for any other kind |
| ElfLoader.SecondNotFirst | assignment1/src/xv6-riscv/bootloader/elf.c:26-28 | the program header used is e_phentsize bytes past the first one, and so a different one whenever entries have a size |
| ElfLoader.SizeCoversSections | assignment1/src/xv6-riscv/bootloader/elf.c:36 | without wrap-around, the size is e_shoff + e_shnum·e_shentsize, the end of the section-header table: every entry lies below it |
| ElfLoader.Loader.FindKernelLoadAddr | assignment1/src/xv6-riscv/bootloader/elf.c:14-32 | kernel_elfhdr is the kind's header address, kernel_phdr is its second program header, and the result is that header's p_vaddr |
| ElfLoader.SizeFollowsLastLookup | assignment1/src/xv6-riscv/bootloader/elf.c:34-44 | size and entry are read from the header the last load-address lookup chose, whatever kind they are asked about |

## Findings

| source | as written | input that shows it | evidently intended | confidence | as-written member | corrected member |
|---|---|---|---|---|---|---|
| assignment2/src/xv6-riscv/kernel/cow.c:37 | `cow_group_init` claims the first slot whose id is 0, but `cow_init` (cow.c:87) sets every id to -1 | `cow_init()` then `cow_group_init(g)`: no slot is claimed, and a later `get_cow_group(g)` returns NULL | claim the first free slot, the one with id -1 | not executed | CowGroups.InitClaimsNothing | CowGroups.ClaimFreeThenFind |
| assignment3/src/xv6-riscv/user/ulthread.c:47 | `ulthread_create` takes the new id from `thread_count`, which `ulthread_destroy` lowers (ulthread.c:181), and destroy frees the first slot carrying the current id (ulthread.c:170) | on an empty table, create, create, destroy the first, create: the threads in slots 0 and 1 both get id 2, and destroying the thread in slot 1 frees slot 0 | ids that never repeat among live threads, so destroy frees the current thread's own slot | not executed | ThreadSpec.IdReused | ThreadSpec.DestroyFreesCurrent |

## Left out

- Pointers to structures become indices into arrays and sequences; a NULL pointer is `-1` or `None`.
- The multi-level page-table walk. A table is a map from address to leaf entry. `walk`, `walkaddr`, `mappages`, `uvmunmap`, `uvmalloc`, `proc_pagetable` and `sfence_vma` are map operations or parameters. The physical page `proc_pagetable` returns is the parameter `base`.
- Physical memory is not modelled. `kalloc`, `kfree` and the freeing half of `uvmunmap(.., do_free = 1)` are left out. The same goes for the instruction fetch through `walkaddr` in `trap_and_emulate`, which becomes the parameter `instr`.
- `myproc`, `setkilled`, `r_sepc`, `r_stval` and `r_scause` become parameters and fields of `Proc`. The trapframe registers are the sequence `gprs`, indexed by rs1 - 1 / rd - 1.
- All `printf` and `print_*` traces and `print_reg`.
- The commented-out code of trap-and-emulate.c.
- The scan of `get_vm_reg` also runs over the trailing pointer and int fields of `vm_state`, a 36th "register". Only the 35 declared registers are modelled.
- Privilege.CsrWrite: requires rs1 ≠ 0. With rs1 = 0 the source reads the trapframe word before `ra`; that slot is outside the modelled register file.
- TrapEmulate.VmState.HandleCsrw: requires rs1 ≠ 0, for the same reason.
- Privilege.CsrRead: requires rd ≠ 0 and an existing CSR. The source writes the word before `ra` for rd = 0, and dereferences NULL for an unknown CSR.
- TrapEmulate.VmState.HandleCsrr: requires rd ≠ 0 and an existing CSR, for the same reasons.
- TrapEmulate.CopyPagetableRegion: requires a valid entry on every page, where the source panics. Privilege.Mret, Privilege.TrapAndEmulate, TrapEmulate.VmState.HandleMret and TrapEmulate.VmState.TrapAndEmulate inherit this requirement through MretAllowed and TrapAllowed (the CanCopy condition on the live table), so they do not model that panic either.
- PageTable.UnmapPage: vm.c is not part of this model. `uvmunmap(.., 1, 0)` is modelled as skipping a page with no entry or an invalid entry, like the variant commented out at trap-and-emulate.c:72-97. Stock xv6 panics on those pages, and on an unaligned address, which the model also treats as a no-op. The unmapping loop at trap-and-emulate.c:103-107 steps a 64-bit counter by PGSIZE; a region ending within one page of 2^64 would wrap that counter so the C loop never ends, while the model's unbounded counter stops (stock xv6's walk panics at MAXVA before that). So a PMP region outside the copied ranges (pmpaddr0 << 2 = 0x80800000 with RWX not 7, say) yields a restricted table in the model where stock xv6 would panic.
- PageTable.MapPage: `mappages` over an existing valid entry overwrites it in the model, where stock xv6 panics with "remap".
- `copy_on_write` (cow.c:122-149) consists of page copying through kalloc, copyin, copyout and uvmalloc. Its page-table effect would be an unmap followed by a fresh mapping.
- `cow_lock` is unused by the code shown.
- CowGroups.CowTable.GetCowGroupCount: requires the group to exist. `get_cow_group_count` (cow.c:45) dereferences the result of `get_cow_group` unchecked, which is NULL for -1 and for an id no slot holds.
- CowGroups.CowTable.IncrCowGroupCount: requires the group to exist, for the same NULL dereference (cow.c:48).
- CowGroups.CowTable.DecrCowGroupCount: requires the group to exist, for the same NULL dereference (cow.c:51).
- CowGroups.CowTable.AddShmem: requires the group to be -1 or to exist, and the list to hold pa or a free entry. The source dereferences NULL otherwise (cow.c:58), or writes one entry past a full list (cow.c:67).
- CowGroups.CowTable.IsShmem: requires the group to be -1 or to exist. The source dereferences NULL otherwise (cow.c:74).
- These NULL cases are reachable as the code stands. `cow_init` gives every slot id -1, while `cow_group_init` claims only a slot with id 0, so no group is ever found (see Findings).
- NPROC comes from param.h, which is not part of this model; stock xv6's 64 is used.
- CowFork.UvmCopyCowIn: requires the caller's group to exist (or be -1), the list not to overflow, and a PTE slot on every page below sz. The source dereferences NULL, writes past the list or panics otherwise. A failing `mappages` is the set `oom` of addresses whose mapping fails. The remap panic of `mappages` is not modelled.
- pfault.c's disk I/O (`bread`, `bwrite`, `brelse`), `copyin`/`copyout`, `kalloc` and the `uvmunmap`/`uvmalloc` calls are left out. So are the unused `count` loop (pfault.c:80-88), the ELF segment loading of `page_fault_handler` (pfault.c:189-229) and its copy-on-write branch (pfault.c:178-187). On those paths the paging state is unchanged.
- PSASIZE, PSASTART, MAXHEAP and MAXRESHEAP come from param.h and proc.h, which are not part of this model. They become the array sizes, `SwapArea.start` and the parameter `maxRes`.
- `read_current_timestamp` becomes the parameter `now`. The source reads the clock once per matching entry; the model uses one value for all of them.
- Pager.EvictPageToDisk: requires a victim and four blocks inside the tracker. The source indexes with -1, or past the array, otherwise.
- Pager.PageFaultHandler: requires what the heap path's eviction and retrieval need, for the same reason.
- `ulthread_context_switch` is assembly and is left out; each operation stops at the switch. `ctime()` becomes the parameter `now`.
- `ulthread_schedule`'s `while (thread_count > 1)` loop is modelled as one round: one selection, up to the switch.
- `get_current_tid` is left out.
- ThreadLib.Library.UlthreadCreate: requires a FREE slot and six arguments. The source indexes with -1, or reads past `args`, otherwise.
- ThreadLib.Library.ScheduleRound: requires a current or RUNNABLE thread. The source dereferences NULL otherwise.
- ThreadLib.Library.HighestPass: before any thread has yielded, `last_yielded_thread` is NULL and the source reads a tid from user address 0. The model takes that word as the parameter `nullTid`, with no constraint on it.
- ThreadLib.Library.UlthreadDestroy and ThreadLib.Library.UlthreadYield: require a current thread, which the source dereferences.
- ulthread.h's context layout: the twelve saved registers are the sequence `saved` and a0..a5 the sequence `args`.
- Bootloader memory is modelled as two views, not bytes: the ELF header an address holds, and the p_vaddr of the program header at an address. elf.h and layout.h are not part of this model, and RAMDISK becomes the constructor parameter `ramdisk`.
- The C `int` arithmetic of `shentsize * shnum` is unbounded in the model. The product of two 16-bit fields cannot overflow 32 bits as unsigned values, but it can as signed `int`. Only the final 64-bit sum wraps.
- ElfLoader.Loader.FindKernelSize and ElfLoader.Loader.FindKernelEntryAddr carry no contract of their own. They read the stored header; SizeFollowsLastLookup and SizeCoversSections state their properties.
- `start.c` (boot plumbing, SHA-256, raw CSR writes) is not part of this model.
