/** Process control blocks and their lifecycle: creation from a program image,
    `exec`, `fork` and `spawn`, the first-fit file-descriptor allocator and the
    runtime counters.

    Control blocks live in an arena keyed by process id.  A parent link is the
    parent's id and a child link the child's id, in place of the weak and
    strong shared pointers.  The trap context of a task lives in a physical
    page of its address space; the arena keeps those pages as a map from page
    number to trap context.  Everything produced by code outside this model
    (the address space built from an ELF image or copied from a parent, the
    process id and kernel stack allocators, the kernel's address-space token,
    the trap handler's address) arrives as a parameter. */
module Task {
  import opened Address

  type i32 = x: int | -0x8000_0000 <= x < 0x8000_0000
  type Pid = usize

  datatype TaskStatus = Ready | Running | Zombie

  /** An address space, as an opaque handle. */
  datatype MemorySet = MemorySet(id: nat)

  /** A shared open file, as an opaque handle: two descriptor slots holding
      the same handle share the same underlying file. */
  datatype File = Stdin | Stdout | OpenFile(id: nat)

  /** The kernel stack leased for a process id; only its top is used here. */
  datatype KernelStack = KernelStack(top: usize)

  /** `TaskContext::goto_trap_return(kstack_top)`: the saved kernel context
      that resumes in the trap-return path on the given kernel stack. */
  datatype TaskContext = GotoTrapReturn(kernelStackTop: usize)

  /** The user trap frame: user stack pointer, resume address (`sepc`), the
      kernel's address-space token and stack pointer, the trap handler's
      address, and the other saved registers. */
  datatype TrapContext = TrapContext(
    userSp: usize,
    sepc: usize,
    kernelSatp: usize,
    kernelSp: usize,
    trapHandler: usize,
    otherRegs: seq<usize>)

  /** `TrapContext::app_init_context`: the frame that enters the program at
      `entry` with user stack pointer `sp`.  Only its five arguments are
      modelled; the remaining registers are an empty placeholder. */
  function AppInitContext(entry: usize, sp: usize, kernelSatp: usize, kernelSp: usize, trapHandler: usize): TrapContext {
    TrapContext(sp, entry, kernelSatp, kernelSp, trapHandler, [])
  }

  /** What `MemorySet::from_elf` returns (the new address space, the initial
      user stack pointer, the entry point), together with the page that the
      space's translation gives for the trap-context address. */
  datatype LoadedElf = LoadedElf(memorySet: MemorySet, userSp: usize, entryPoint: usize, trapCxPpn: PhysPageNum)

  /** The mutable part of a control block. */
  datatype TaskControlBlockInner = TaskControlBlockInner(
    trapCxPpn: PhysPageNum,
    baseSize: usize,
    taskCx: TaskContext,
    taskStatus: TaskStatus,
    memorySet: MemorySet,
    parent: Option<Pid>,
    children: seq<Pid>,
    exitCode: i32,
    runtimeInUser: usize,
    runtimeInKernel: usize,
    fdTable: seq<Option<File>>)
  {
    /** `is_zombie`: the block has exited and is neither ready nor running. */
    predicate IsZombie(): (z: bool)
      ensures z <==> taskStatus != Ready && taskStatus != Running
    {
      taskStatus == Zombie
    }
  }

  datatype TaskControlBlock = TaskControlBlock(pid: Pid, kernelStack: KernelStack, inner: TaskControlBlockInner)
  {
    /** `getpid`. */
    function GetPid(): Pid {
      pid
    }
  }

  /** The descriptor table of the first three descriptors: stdin, stdout and
      stderr (which writes to stdout). */
  const STANDARD_FDS: seq<Option<File>> := [Some(Stdin), Some(Stdout), Some(Stdout)]

  /** `(0..len).find(|fd| fd_table[fd].is_none())`: the lowest empty slot. */
  method FindFreeFd(fdTable: seq<Option<File>>) returns (found: Option<nat>)
    ensures found.Some? ==> found.value < |fdTable| && fdTable[found.value].None?
    ensures found.Some? ==> forall j :: 0 <= j < found.value ==> fdTable[j].Some?
    ensures found.None? <==> forall j :: 0 <= j < |fdTable| ==> fdTable[j].Some?
  {
    var fd := 0;
    while fd < |fdTable|
      invariant 0 <= fd <= |fdTable|
      invariant forall j :: 0 <= j < fd ==> fdTable[j].Some?
    {
      if fdTable[fd].None? {
        return Some(fd);
      }
      fd := fd + 1;
    }
    return None;
  }

  /** The loop of `fork` that builds the child's table: an occupied slot
      gets a clone of the shared handle, an empty slot stays empty. */
  method CopyFdTable(fdTable: seq<Option<File>>) returns (copy: seq<Option<File>>)
    ensures |copy| == |fdTable|
    ensures forall i :: 0 <= i < |fdTable| ==> (copy[i].Some? <==> fdTable[i].Some?)
    ensures forall i :: 0 <= i < |fdTable| && fdTable[i].Some? ==> copy[i].value == fdTable[i].value
  {
    copy := [];
    for i := 0 to |fdTable|
      invariant copy == fdTable[..i]
    {
      match fdTable[i]
      case Some(file) =>
        copy := copy + [Some(file)];
      case None =>
        copy := copy + [None];
    }
  }

  /** Every block sits under its own id and has its own trap-context page,
      shared with no other block; every child link names a block whose
      parent link names the parent back; no child is listed twice. */
  ghost predicate ArenaValid(tasks: map<Pid, TaskControlBlock>, trapContexts: map<PhysPageNum, TrapContext>)
  {
    && (forall p :: p in tasks ==> tasks[p].GetPid() == p)
    && (forall p :: p in tasks ==> tasks[p].inner.trapCxPpn in trapContexts)
    && (forall p, q :: p in tasks && q in tasks && p != q ==>
          tasks[p].inner.trapCxPpn != tasks[q].inner.trapCxPpn)
    && (forall p, i :: p in tasks && 0 <= i < |tasks[p].inner.children| ==>
          tasks[p].inner.children[i] in tasks &&
          tasks[tasks[p].inner.children[i]].inner.parent == Some(p))
    && (forall p, i, j :: p in tasks && 0 <= i < j < |tasks[p].inner.children| ==>
          tasks[p].inner.children[i] != tasks[p].inner.children[j])
  }

  /** Adding a childless block `c` under `parent`, on a trap-context page no
      block uses, keeps the invariant, and every existing block keeps its
      trap-context page and its saved trap context. */
  lemma LinkChildKeepsValid(tasks: map<Pid, TaskControlBlock>, trapContexts: map<PhysPageNum, TrapContext>,
                            parent: Pid, c: TaskControlBlock, cx: TrapContext)
    requires ArenaValid(tasks, trapContexts)
    requires parent in tasks && c.pid !in tasks && c.inner.trapCxPpn !in trapContexts
    requires c.inner.parent == Some(parent) && c.inner.children == []
    ensures var t := tasks[c.pid := c][parent := tasks[parent].(inner :=
                       tasks[parent].inner.(children := tasks[parent].inner.children + [c.pid]))];
            var tc := trapContexts[c.inner.trapCxPpn := cx];
            && ArenaValid(t, tc)
            && (forall q :: q in tasks ==> t[q].inner.trapCxPpn == tasks[q].inner.trapCxPpn)
            && (forall q :: q in tasks ==> tc[t[q].inner.trapCxPpn] == trapContexts[tasks[q].inner.trapCxPpn])
  {
    var t := tasks[c.pid := c][parent := tasks[parent].(inner :=
               tasks[parent].inner.(children := tasks[parent].inner.children + [c.pid]))];
    var tc := trapContexts[c.inner.trapCxPpn := cx];
    assert forall q :: q in tasks ==> t[q].inner.trapCxPpn == tasks[q].inner.trapCxPpn;
    forall p, i | p in t && 0 <= i < |t[p].inner.children|
      ensures t[p].inner.children[i] in t && t[t[p].inner.children[i]].inner.parent == Some(p)
    {
      if p == parent && i == |tasks[parent].inner.children| {
        assert t[p].inner.children[i] == c.pid;
      } else if p != c.pid {
        assert t[p].inner.children[i] == tasks[p].inner.children[i];
      }
    }
    forall p, i, j | p in t && 0 <= i < j < |t[p].inner.children|
      ensures t[p].inner.children[i] != t[p].inner.children[j]
    {
      if p == parent && j == |tasks[parent].inner.children| {
        assert tasks[parent].inner.children[i] in tasks;
      }
    }
  }

  /** All control blocks, keyed by process id, and the trap-context pages. */
  class TaskArena {
    var tasks: map<Pid, TaskControlBlock>
    var trapContexts: map<PhysPageNum, TrapContext>

    /** The arena's invariant, `ArenaValid`, on the current state. */
    ghost predicate Valid()
      reads this
    {
      ArenaValid(tasks, trapContexts)
    }

    constructor ()
      ensures Valid()
      ensures tasks == map[] && trapContexts == map[]
    {
      tasks := map[];
      trapContexts := map[];
    }

    /** `TaskControlBlock::new`: a fresh, parentless, ready block around the
        loaded image, with the three standard descriptors, and its trap
        context initialised to enter the program. */
    method New(pid: Pid, kernelStack: KernelStack, elf: LoadedElf, kernelToken: usize, trapHandler: usize)
      requires Valid()
      requires pid !in tasks
      requires elf.trapCxPpn !in trapContexts
      modifies this
      ensures Valid()
      ensures tasks.Keys == old(tasks.Keys) + {pid}
      ensures forall q :: q in old(tasks) ==> tasks[q] == old(tasks[q])
      ensures forall q :: q in old(tasks) ==>
                trapContexts[tasks[q].inner.trapCxPpn] == old(trapContexts[tasks[q].inner.trapCxPpn])
      ensures tasks[pid].GetPid() == pid && tasks[pid].kernelStack == kernelStack
      ensures var t := tasks[pid].inner;
        && t.taskStatus == Ready && !t.IsZombie()
        && t.parent == None && t.children == []
        && t.exitCode == 0 && t.runtimeInUser == 0 && t.runtimeInKernel == 0
        && t.baseSize == elf.userSp
        && t.memorySet == elf.memorySet && t.trapCxPpn == elf.trapCxPpn
        && t.taskCx == GotoTrapReturn(kernelStack.top)
        && t.fdTable == STANDARD_FDS
      ensures trapContexts == old(trapContexts)[elf.trapCxPpn :=
                AppInitContext(elf.entryPoint, elf.userSp, kernelToken, kernelStack.top, trapHandler)]
    {
      var inner := TaskControlBlockInner(
        elf.trapCxPpn, elf.userSp, GotoTrapReturn(kernelStack.top), Ready, elf.memorySet,
        None, [], 0, 0, 0, STANDARD_FDS);
      tasks := tasks[pid := TaskControlBlock(pid, kernelStack, inner)];
      trapContexts := trapContexts[elf.trapCxPpn :=
        AppInitContext(elf.entryPoint, elf.userSp, kernelToken, kernelStack.top, trapHandler)];
    }

    /** `TaskControlBlock::exec`: the task keeps its identity and every other
        field; only its address space and trap-context page are replaced, the
        old address space (with its trap-context page) is released, and the new
        trap context enters the new program on the same kernel stack. */
    method Exec(pid: Pid, elf: LoadedElf, kernelToken: usize, trapHandler: usize)
      requires Valid()
      requires pid in tasks
      requires elf.trapCxPpn !in trapContexts
      modifies this
      ensures Valid()
      ensures tasks.Keys == old(tasks.Keys)
      ensures forall q :: q in old(tasks) && q != pid ==> tasks[q] == old(tasks[q])
      ensures forall q :: q in old(tasks) && q != pid ==>
                trapContexts[tasks[q].inner.trapCxPpn] == old(trapContexts[tasks[q].inner.trapCxPpn])
      ensures tasks[pid].pid == pid && tasks[pid].kernelStack == old(tasks[pid].kernelStack)
      ensures tasks[pid].inner ==
                old(tasks[pid].inner).(memorySet := elf.memorySet, trapCxPpn := elf.trapCxPpn)
      ensures old(tasks[pid].inner.trapCxPpn) !in trapContexts
      ensures trapContexts == (old(trapContexts) - {old(tasks[pid].inner.trapCxPpn)})[elf.trapCxPpn :=
                AppInitContext(elf.entryPoint, elf.userSp, kernelToken, old(tasks[pid].kernelStack.top), trapHandler)]
    {
      var tcb := tasks[pid];
      var inner := tcb.inner.(memorySet := elf.memorySet, trapCxPpn := elf.trapCxPpn);
      tasks := tasks[pid := tcb.(inner := inner)];
      trapContexts := (trapContexts - {tcb.inner.trapCxPpn})[elf.trapCxPpn :=
        AppInitContext(elf.entryPoint, elf.userSp, kernelToken, tcb.kernelStack.top, trapHandler)];
    }

    /** `TaskControlBlock::fork`: the child gets a copy of the parent's address
        space (`copy`, whose trap-context page is `childTrapCxPpn`), a copy of
        the parent's descriptor table and base size, fresh counters, and a
        parent link; the parent gains the child at the end of its children and
        changes in nothing else.  The copied trap context is the parent's, with
        the kernel stack pointer moved to the child's kernel stack. */
    method Fork(parent: Pid, child: Pid, kernelStack: KernelStack, copy: MemorySet, childTrapCxPpn: PhysPageNum)
      requires Valid()
      requires parent in tasks && child !in tasks
      requires childTrapCxPpn !in trapContexts
      modifies this
      ensures Valid()
      ensures tasks.Keys == old(tasks.Keys) + {child}
      ensures forall q :: q in old(tasks) && q != parent ==> tasks[q] == old(tasks[q])
      ensures forall q :: q in old(tasks) ==>
                trapContexts[tasks[q].inner.trapCxPpn] == old(trapContexts[tasks[q].inner.trapCxPpn])
      ensures tasks[parent] == old(tasks[parent]).(inner :=
                old(tasks[parent].inner).(children := old(tasks[parent].inner.children) + [child]))
      ensures tasks[child].GetPid() == child && tasks[child].kernelStack == kernelStack
      ensures var t, p := tasks[child].inner, old(tasks[parent].inner);
        && t.taskStatus == Ready && !t.IsZombie()
        && t.parent == Some(parent) && t.children == []
        && t.exitCode == 0 && t.runtimeInUser == 0 && t.runtimeInKernel == 0
        && t.baseSize == p.baseSize
        && t.memorySet == copy && t.trapCxPpn == childTrapCxPpn
        && t.taskCx == GotoTrapReturn(kernelStack.top)
        && |t.fdTable| == |p.fdTable|
        && (forall i :: 0 <= i < |p.fdTable| ==> t.fdTable[i] == p.fdTable[i])
      ensures trapContexts == old(trapContexts)[childTrapCxPpn :=
                old(trapContexts[tasks[parent].inner.trapCxPpn]).(kernelSp := kernelStack.top)]
    {
      var parentTcb := tasks[parent];
      var fdTable := CopyFdTable(parentTcb.inner.fdTable);
      var inner := TaskControlBlockInner(
        childTrapCxPpn, parentTcb.inner.baseSize, GotoTrapReturn(kernelStack.top), Ready, copy,
        Some(parent), [], 0, 0, 0, fdTable);
      var copiedCx := trapContexts[parentTcb.inner.trapCxPpn];
      LinkChildKeepsValid(tasks, trapContexts, parent, TaskControlBlock(child, kernelStack, inner),
                          copiedCx.(kernelSp := kernelStack.top));
      tasks := tasks[child := TaskControlBlock(child, kernelStack, inner)];
      tasks := tasks[parent := parentTcb.(inner := parentTcb.inner.(children := parentTcb.inner.children + [child]))];
      trapContexts := trapContexts[childTrapCxPpn := copiedCx.(kernelSp := kernelStack.top)];
      assert fdTable == parentTcb.inner.fdTable;
    }

    /** `TaskControlBlock::spawn`: a ready child running a new image, with no
        descriptors, linked to the parent; the parent gains the child at the
        end of its children and changes in nothing else. */
    method Spawn(parent: Pid, child: Pid, kernelStack: KernelStack, elf: LoadedElf, kernelToken: usize, trapHandler: usize)
      requires Valid()
      requires parent in tasks && child !in tasks
      requires elf.trapCxPpn !in trapContexts
      modifies this
      ensures Valid()
      ensures tasks.Keys == old(tasks.Keys) + {child}
      ensures forall q :: q in old(tasks) && q != parent ==> tasks[q] == old(tasks[q])
      ensures forall q :: q in old(tasks) ==>
                trapContexts[tasks[q].inner.trapCxPpn] == old(trapContexts[tasks[q].inner.trapCxPpn])
      ensures tasks[parent] == old(tasks[parent]).(inner :=
                old(tasks[parent].inner).(children := old(tasks[parent].inner.children) + [child]))
      ensures tasks[child].GetPid() == child && tasks[child].kernelStack == kernelStack
      ensures var t := tasks[child].inner;
        && t.taskStatus == Ready && !t.IsZombie()
        && t.parent == Some(parent) && t.children == []
        && t.exitCode == 0 && t.runtimeInUser == 0 && t.runtimeInKernel == 0
        && t.baseSize == elf.userSp
        && t.memorySet == elf.memorySet && t.trapCxPpn == elf.trapCxPpn
        && t.taskCx == GotoTrapReturn(kernelStack.top)
        && t.fdTable == []
      ensures trapContexts == old(trapContexts)[elf.trapCxPpn :=
                AppInitContext(elf.entryPoint, elf.userSp, kernelToken, kernelStack.top, trapHandler)]
    {
      var parentTcb := tasks[parent];
      var inner := TaskControlBlockInner(
        elf.trapCxPpn, elf.userSp, GotoTrapReturn(kernelStack.top), Ready, elf.memorySet,
        Some(parent), [], 0, 0, 0, []);
      LinkChildKeepsValid(tasks, trapContexts, parent, TaskControlBlock(child, kernelStack, inner),
                          AppInitContext(elf.entryPoint, elf.userSp, kernelToken, kernelStack.top, trapHandler));
      tasks := tasks[child := TaskControlBlock(child, kernelStack, inner)];
      tasks := tasks[parent := parentTcb.(inner := parentTcb.inner.(children := parentTcb.inner.children + [child]))];
      trapContexts := trapContexts[elf.trapCxPpn :=
        AppInitContext(elf.entryPoint, elf.userSp, kernelToken, kernelStack.top, trapHandler)];
    }

    /** `TaskControlBlockInner::alloc_fd`: the lowest empty slot if there is
        one, otherwise a new empty slot appended at the end. */
    method AllocFd(pid: Pid) returns (fd: nat)
      requires Valid()
      requires pid in tasks
      modifies this
      ensures Valid()
      ensures trapContexts == old(trapContexts)
      ensures tasks.Keys == old(tasks.Keys)
      ensures forall q :: q in old(tasks) && q != pid ==> tasks[q] == old(tasks[q])
      ensures var before := old(tasks[pid].inner.fdTable);
        && tasks[pid] == old(tasks[pid]).(inner := old(tasks[pid].inner).(fdTable := tasks[pid].inner.fdTable))
        && fd < |tasks[pid].inner.fdTable| && tasks[pid].inner.fdTable[fd].None?
        && fd <= |before| && (forall j :: 0 <= j < fd ==> before[j].Some?)
        && (fd < |before| ==> tasks[pid].inner.fdTable == before)
        && (fd == |before| ==> tasks[pid].inner.fdTable == before + [None])
    {
      var tcb := tasks[pid];
      var found := FindFreeFd(tcb.inner.fdTable);
      if found.Some? {
        fd := found.value;
      } else {
        tasks := tasks[pid := tcb.(inner := tcb.inner.(fdTable := tcb.inner.fdTable + [None]))];
        fd := |tcb.inner.fdTable|;
      }
    }

    /** `increase_user_timer`: adds `ms` to the user-mode counter only. */
    method IncreaseUserTimer(pid: Pid, ms: usize)
      requires Valid()
      requires pid in tasks
      requires tasks[pid].inner.runtimeInUser + ms < USIZE_LIMIT
      modifies this
      ensures Valid()
      ensures trapContexts == old(trapContexts)
      ensures tasks.Keys == old(tasks.Keys)
      ensures forall q :: q in old(tasks) && q != pid ==> tasks[q] == old(tasks[q])
      ensures tasks[pid].inner.runtimeInUser == old(tasks[pid].inner.runtimeInUser) + ms
      ensures tasks[pid] == old(tasks[pid]).(inner := old(tasks[pid].inner).(runtimeInUser := tasks[pid].inner.runtimeInUser))
    {
      var tcb := tasks[pid];
      tasks := tasks[pid := tcb.(inner := tcb.inner.(runtimeInUser := tcb.inner.runtimeInUser + ms))];
    }

    /** `increase_kernel_timer`: adds `ms` to the kernel-mode counter only. */
    method IncreaseKernelTimer(pid: Pid, ms: usize)
      requires Valid()
      requires pid in tasks
      requires tasks[pid].inner.runtimeInKernel + ms < USIZE_LIMIT
      modifies this
      ensures Valid()
      ensures trapContexts == old(trapContexts)
      ensures tasks.Keys == old(tasks.Keys)
      ensures forall q :: q in old(tasks) && q != pid ==> tasks[q] == old(tasks[q])
      ensures tasks[pid].inner.runtimeInKernel == old(tasks[pid].inner.runtimeInKernel) + ms
      ensures tasks[pid] == old(tasks[pid]).(inner := old(tasks[pid].inner).(runtimeInKernel := tasks[pid].inner.runtimeInKernel))
    {
      var tcb := tasks[pid];
      tasks := tasks[pid := tcb.(inner := tcb.inner.(runtimeInKernel := tcb.inner.runtimeInKernel + ms))];
    }
  }

  /** `getpid` on a block of the arena gives the id it is stored under, so
      two distinct blocks report distinct ids. */
  lemma GetPidIsKey(arena: TaskArena, p: Pid, q: Pid)
    requires arena.Valid()
    requires p in arena.tasks && q in arena.tasks
    ensures arena.tasks[p].GetPid() == p
    ensures p != q ==> arena.tasks[p].GetPid() != arena.tasks[q].GetPid()
  {
  }

  /** A block is listed as a child by at most one parent. */
  lemma ParentIsUnique(arena: TaskArena, p1: Pid, p2: Pid, c: Pid)
    requires arena.Valid()
    requires p1 in arena.tasks && c in arena.tasks[p1].inner.children
    requires p2 in arena.tasks && c in arena.tasks[p2].inner.children
    ensures p1 == p2
  {
  }
}
