# SV39 address algebra, process control blocks and the system-call entry of a small RISC-V kernel

This project models three parts of a teaching kernel for 64-bit RISC-V with
SV39 paging, and proves properties of the model in Dafny.

- `address.dfy` (module `Address`) covers the SV39 address and page-number value types.
  - Physical addresses are masked to 56 bits and virtual addresses to 39 bits.
  - A virtual address is sign-extended back to a canonical 64-bit word.
  - It has page rounding (`floor`, `ceil`, `page_offset`, `aligned`).
  - It splits a virtual page number into its three 9-bit page-table indices.
  - It has the half-open page-number range `[l, r)` and its iterator.
- `task.dfy` (module `Task`) covers the process control block and its lifecycle.
  - It models `new`, `exec`, `fork`, `spawn`, the first-fit descriptor allocator `alloc_fd` and the two runtime counters.
  - Blocks live in an arena, `TaskArena.tasks`, that maps a process id to the block.
  - The parent link is the parent's id. A child link is the child's id.
  - Trap contexts live in their physical pages, `TaskArena.trapContexts`.
  - `TaskArena.Valid` is the ownership invariant that every operation keeps. Every block has its own trap-context page, shared with no other block. Every child link names a block that links back to the parent. No child is listed twice.
  - `is_zombie` is `TaskControlBlockInner.IsZombie` and `getpid` is `TaskControlBlock.GetPid`. Both are used in the contracts of `New`, `Fork` and `Spawn`. `IsZombie` has a row below, and `getpid` has one through `GetPidIsKey`.
- `syscall.dfy` (module `Syscall`) covers the entry point `syscall`.
  - It dispatches on the six call numbers. Any other number is a kernel panic.
  - It does runtime accounting around the dispatch. The time since the last kernel entry goes to the user counter of the task that was running at entry. The time of the call goes to the kernel counter of that same task.

Modelling conventions:

- A machine word is `usize`, an integer in `[0, 2^64)`.
- A mask `x & ((1 << k) - 1)` is `x % 2^k`, and a right shift by `k` is a division by `2^k`.
- `vpn << 12` drops the bits shifted out of the word.
- Checked arithmetic that would overflow in the address and task code is an explicit failure value (`None`) or a precondition. The table below says which. The syscall counters are unbounded instead (see "## Left out"). `Panicked` is the panic on an unsupported call number, not an arithmetic failure.
- These are parameters:
  - the address spaces built from an ELF image or copied from a parent
  - the process-id and kernel-stack allocators
  - the kernel's address-space token and the trap handler's address
  - the clock readings
  - the id of the running task
  - the system-call handlers

## Model

| member | source | states |
|---|---|---|
| `Address.PhysAddrFrom` | os/src/mm/address.rs:74-79 | the result is below 2^56, equals the input when it is already below 2^56, and differs from it by a multiple of 2^56 |
| `Address.VirtAddrFrom` | os/src/mm/address.rs:86-91 | the result is below 2^39, equals the input when it is already below 2^39, and differs from it by a multiple of 2^39 |
| `Address.PhysAddrFromIdempotent` | os/src/mm/address.rs:76-78 | masking a physical address twice is masking it once |
| `Address.VirtAddrFromIdempotent` | os/src/mm/address.rs:88-90 | masking a virtual address twice is masking it once |
| `Address.PhysPageNumFrom` | os/src/mm/address.rs:80-85 | the frame number is below 2^44 and equals `floor` of the masked physical address |
| `Address.VirtPageNumFrom` | os/src/mm/address.rs:92-101 | the page number is below 2^27 and equals `floor` of the masked virtual address |
| `Address.VirtAddrToUsize` | os/src/mm/address.rs:117-129 | when the value is at least 2^38, bits 39..63 of the word are all ones and its low 39 bits are the address's; otherwise the word is the address; masking the word gives the masked address back; a 39-bit address gives a canonical word |
| `Address.VirtAddrRoundTrip` | os/src/mm/address.rs:117-129 | a 39-bit virtual address converted to a word and back is unchanged |
| `Address.CanonicalRoundTrip` | os/src/mm/address.rs:115-128 | a word survives masking and sign extension exactly when it is canonical (bits 63..38 equal); a second round trip changes nothing |
| `Address.VirtFloor` | os/src/mm/address.rs:137-140 | the page number is the one whose page holds the address |
| `Address.VirtCeil` | os/src/mm/address.rs:141-144 | fails exactly at address 0 and at every address after the first one of the word's last page (overflow); otherwise gives the least page boundary at or above the address: `floor` when aligned, `floor + 1` otherwise |
| `Address.VirtPageOffset` | os/src/mm/address.rs:145-148 | the offset is below 4096 and `address == floor * 4096 + offset` |
| `Address.VirtAligned` | os/src/mm/address.rs:149-151 | holds exactly when the address is the first byte of its page |
| `Address.VirtAddrOfPage` | os/src/mm/address.rs:160-165 | the address is `vpn * 4096` whenever that fits in a word |
| `Address.VirtPageRoundTrip` | os/src/mm/address.rs:153-165 | page number to address to page number is the identity, and the address between is aligned |
| `Address.VirtAlignedRoundTrip` | os/src/mm/address.rs:153-165 | an aligned address to its page number and back is unchanged |
| `Address.PhysFloor` | os/src/mm/address.rs:167-170 | the frame number is the one whose frame holds the address |
| `Address.PhysCeil` | os/src/mm/address.rs:171-174 | as `VirtCeil`, for physical addresses |
| `Address.PhysPageOffset` | os/src/mm/address.rs:175-178 | the offset is below 4096 and `address == floor * 4096 + offset` |
| `Address.PhysAligned` | os/src/mm/address.rs:179-182 | holds exactly when the address is the first byte of its frame |
| `Address.PhysAddrOfPage` | os/src/mm/address.rs:191-196 | the address is `ppn * 4096` whenever that fits in a word |
| `Address.PhysPageRoundTrip` | os/src/mm/address.rs:184-196 | frame number to address to frame number is the identity, and the address between is aligned |
| `Address.Indexes` | os/src/mm/address.rs:198-209 | the loop fills three slots, each below 512, most significant level first, as `IndexesOf` |
| `Address.IndexesClosedForm` | os/src/mm/address.rs:200-208 | the indices are `(vpn >> 18) & 511`, `(vpn >> 9) & 511`, `vpn & 511` |
| `Address.IndexesRecompose` | os/src/mm/address.rs:200-208 | for a 27-bit page number, `idx0 * 2^18 + idx1 * 2^9 + idx2` gives the page number back |
| `Address.IndexesExamples` | os/src/mm/address.rs:200-208 | page 0 gives `[0, 0, 0]`; page `0b111111111_000000000_000000001` gives `[511, 0, 1]` |
| `Address.Step` | os/src/mm/address.rs:233-239 | the next page number is the least one above the current |
| `Address.NewRange` | os/src/mm/address.rs:254-257 | fails exactly when start is past end; otherwise holds the two bounds |
| `Address.Contain` | os/src/mm/address.rs:264-266 | `contain(v)` holds exactly when `v` is one of the pages the range stands for, `l <= v < r` |
| `Address.Pages` | os/src/mm/address.rs:242-249 | a range `[l, r)` stands for `r - l` page numbers, none when `l > r` |
| `Address.SimpleRangeIterator.constructor` | os/src/mm/address.rs:274-276 | the iterator starts at `l` with end `r` |
| `Address.SimpleRangeIterator.Next` | os/src/mm/address.rs:299-307 | at the end it yields nothing and stays put; otherwise yields the current page number and steps to the next |
| `Address.Walk` | os/src/mm/address.rs:268-307 | iterating a range yields `l, l+1, ..., r-1` in order, exactly `r - l` items, then stops |
| `Task.FindFreeFd` | os/src/task/task.rs:62 | finds the lowest empty slot, or reports that every slot is occupied |
| `Task.CopyFdTable` | os/src/task/task.rs:171-179 | the copy has the same length; slot `i` is occupied exactly when the original's is, with the same shared file |
| `Task.TaskArena.AllocFd` | os/src/task/task.rs:61-68 | returns the lowest empty slot and leaves the table as it is, or, when every slot is occupied, appends one empty slot and returns the old length; no other field or block changes |
| `Task.TaskArena.IncreaseUserTimer` | os/src/task/task.rs:69-71 | the user counter grows by exactly `ms`; nothing else changes |
| `Task.TaskArena.IncreaseKernelTimer` | os/src/task/task.rs:72-74 | the kernel counter grows by exactly `ms`; nothing else changes |
| `Task.TaskControlBlockInner.IsZombie` | os/src/task/task.rs:58-60 | holds exactly when the block is neither ready nor running, that is, when it has exited |
| `Task.GetPidIsKey` | os/src/task/task.rs:267-269 | under the arena invariant, `getpid` on a block gives the id it is stored under, so distinct blocks report distinct ids |
| `Task.TaskArena.New` | os/src/task/task.rs:81-130 | adds a block under a fresh id: ready, no parent, no children, exit code 0, counters 0, base size = user stack pointer, stdin/stdout/stdout descriptors; its trap context enters the program on a page no block uses; other blocks and their saved trap contexts unchanged; the arena invariant is kept |
| `Task.TaskArena.Exec` | os/src/task/task.rs:132-156 | replaces only the address space and trap-context page; pid, kernel stack, status, parent, children, descriptors, base size, exit code and counters are kept; the new trap context enters the new program on the same kernel stack, on a page no block used; the old address space's trap-context page is released; every other block and its saved trap context is unchanged; the arena invariant is kept |
| `Task.TaskArena.Fork` | os/src/task/task.rs:158-209 | the child is ready, zeroed, linked to the parent, with the parent's base size and the parent's descriptors slot for slot; its trap context is the parent's with the child's kernel stack pointer; the parent only gains the child at the end of its children; every existing block, the parent included, keeps its saved trap context; the arena invariant is kept |
| `Task.TaskArena.Spawn` | os/src/task/task.rs:211-259 | the child is ready, zeroed, linked to the parent, with no descriptors and base size = the new image's user stack pointer; its trap context enters the new program on a page no block uses; the parent only gains the child at the end of its children; every existing block, the parent included, keeps its saved trap context; the arena invariant is kept |
| `Task.LinkChildKeepsValid` | os/src/task/task.rs:180-209 | adding a childless block under an existing parent, on an unused trap-context page, keeps the arena invariant, and every existing block keeps its trap-context page and saved trap context |
| `Task.ParentIsUnique` | os/src/task/task.rs:37-38 | under the arena invariant, a block is the child of at most one parent |
| `Syscall.Route` | os/src/syscall/mod.rs:48-55 | a known number selects the handler reached by that number (64 write, 93 exit, 94 trace, 124 yield, 169 get_time, 410 taskinfo); any other number is the unsupported-call panic |
| `Syscall.RouteReachesEveryHandler` | os/src/syscall/mod.rs:13-19 | every handler is selected by its own number, so the six numbers are distinct |
| `Syscall.EnterKernel` | os/src/syscall/mod.rs:44-47 | the entering task's user counter grows by the time since the last entry, the entry time is recorded, every other counter is unchanged, and the total grows by that same time |
| `Syscall.LeaveKernel` | os/src/syscall/mod.rs:57-60 | the kernel counter of the task that entered grows by the time of the call, the entry time is kept, every other counter is unchanged, and the total grows by that same time |
| `Syscall.AsWrittenRuntime` | os/src/syscall/mod.rs:41-61 | over a run of calls the counters grow by the clock's advance up to the last entry plus the time of every handler, so handler time is charged twice |
| `Syscall.AsWrittenOvercounts` | os/src/syscall/mod.rs:25-29 | one task, calls at 10-15 ms and 20-20 ms: 25 ms are charged over 20 ms of wall clock |
| `Syscall.LeaveKernelCorrected` | os/src/syscall/mod.rs:25-29 | as `LeaveKernel`, and the time at exit becomes the reference point of the next user interval |
| `Syscall.CorrectedRuntimeMatchesClock` | os/src/syscall/mod.rs:25-29 | with the corrected exit, the counters of all tasks together grow by exactly the wall-clock time of the run |
| `Syscall.SyscallAccounting.constructor` | os/src/syscall/mod.rs:29 | the entry time starts at 0 with one zeroed counter pair per task |
| `Syscall.SyscallAccounting.Syscall` | os/src/syscall/mod.rs:41-61 | returns the selected handler's result or panics on an unknown number; the new state is `EnterKernel` of the old one, followed by `LeaveKernel` when the call returns, with the task id read once at entry; only that task's pair and the entry time change |

## Left out

- `Address.VirtCeil` and `Address.PhysCeil` follow checked arithmetic, so every failure case is a panic. With wrapping arithmetic, the release profile gives page 0 instead, both at address 0 and at every address after the first one of the word's last page.
- `Address.Step` requires that the page number plus one fits in a word. The overflow is not modelled.
- `Address.SimpleRangeIterator.constructor` requires `l <= r`. Its only caller in the source is `into_iter`, on a range that `SimpleRange::new` has already checked. `SimpleRangeIterator::new` is public, though. A direct call with `l > r` would never reach `current == end` and would step until the page number overflows. The model excludes that call.
- `SimpleRange` and its iterator are modelled for `VirtPageNum`, the only type with a `StepByOne` implementation.
- `get_start`, `get_end` and the `Debug` implementations are plain field reads or formatting. So are `From<PhysAddr> for usize`, `From<PhysPageNum> for usize` and `From<VirtPageNum> for usize`: each is the `.value` field.
- `get_pte_array`, `get_bytes_array` and `get_mut` reinterpret raw physical memory, so they are left out. The only part kept is the trap-context page, which is a map from page number to trap context.
- `MemorySet` and its page tables are opaque handles. This covers `from_elf`, `from_existed_user`, `translate` and `token`. Of the copy that `from_existed_user` makes, only the trap-context page is modelled.
- These are parameters, and their code is not part of this model: `pid_alloc`, `KernelStack`, `TaskContext::goto_trap_return`, `TrapContext::app_init_context`, `KERNEL_SPACE` and `trap_handler`.
- `AppInitContext` records its five arguments only. The rest of the frame is a placeholder.
- The exclusive-access cell and reference counting are not modelled. The arena's ids stand for the shared pointers.
- Stdout and stderr are both the `Stdout` handle, because `Stdout` carries no state.
- `Task.TaskArena.New`, `Task.TaskArena.Exec`, `Task.TaskArena.Fork` and `Task.TaskArena.Spawn` require the new trap-context page to be one no block holds. In the kernel, the frame allocator guarantees this, because it hands out frames while every other address space is still live. The allocator is not part of this model.
- `Task.TaskArena.IncreaseUserTimer` and `Task.TaskArena.IncreaseKernelTimer` require that the sum fits in a word. The `usize` overflow is not modelled.
- `show_timer_before_exit` only prints the counters.
- `Syscall.SyscallAccounting.Syscall` keeps its counters as unbounded naturals, so `usize` overflow of a counter is not modelled.
  - It requires a clock that does not run backwards. Otherwise the source's subtractions underflow.
  - It requires a task id below the array length. Otherwise the array index panics.
  - The handlers are a pure function of their number and arguments.
  - Every handler, `sys_exit` included, is treated as returning to `syscall`, so the kernel-time update runs for every supported number. If `sys_exit` never returns, the source skips that update for the exit call. The handler bodies are not part of this model.
  - It does not model what a handler that switches tasks lets other tasks do to the accounting before the call returns.
- `Syscall.SyscallAccounting.constructor` starts every counter pair at zero. That initial value is set in `timer.rs`, which is not part of this model.
- The bodies of the handlers, `get_time_ms` and `get_current_taskid` are not part of this model.
- `os/src/main.rs` is boot code (assembly, BSS clearing, console output) and is not part of this model.

## Findings

| source | as written | input that shows it | evidently intended | confidence | as-written member | corrected member |
|---|---|---|---|---|---|---|
| os/src/syscall/mod.rs:45-46 | The entry time is set to the clock at entry and is never moved to the clock at exit. So the next entry charges the previous handler's time again, as user time. The comment at lines 25-28 says this difference is the user-mode running time. | One task, entry time 0. A call enters at 10 ms and returns at 15 ms. A second call enters and returns at 20 ms. The counters read 20 ms user and 5 ms kernel: 25 ms over 20 ms of wall clock. | Set the entry time to the clock when the call returns. User time then counts only time outside the kernel, and the counters add up to the wall-clock time. | medium; not executed | `Syscall.AsWrittenOvercounts` | `Syscall.CorrectedRuntimeMatchesClock` |
