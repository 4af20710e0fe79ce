/** The system-call entry point: dispatch on the call number, and the runtime
    accounting done around every call.

    The clock readings, the id of the task running at entry and the results of
    the individual handlers come from outside this model and arrive as
    parameters.  The accounting state is the time of the last kernel entry and
    one `(user ms, kernel ms)` pair per task. */
module Syscall {
  import opened Address

  type isize = x: int | -0x8000_0000_0000_0000 <= x < 0x8000_0000_0000_0000

  const SYSCALL_WRITE: usize := 64
  const SYSCALL_EXIT: usize := 93
  const SYSCALL_YIELD: usize := 124
  const SYSCALL_GET_TIME: usize := 169
  const SYSCALL_TRACE: usize := 94
  const SYSCALL_TASKINFO: usize := 410

  datatype Handler = SysWrite | SysExit | SysTrace | SysYield | SysGetTime | SysTaskInfo

  /** The call number each handler is reached by. */
  function HandlerId(h: Handler): usize {
    match h
    case SysWrite => SYSCALL_WRITE
    case SysExit => SYSCALL_EXIT
    case SysTrace => SYSCALL_TRACE
    case SysYield => SYSCALL_YIELD
    case SysGetTime => SYSCALL_GET_TIME
    case SysTaskInfo => SYSCALL_TASKINFO
  }

  /** The `match` on the call number: `None` is the unsupported-call panic. */
  function Route(id: usize): (h: Option<Handler>)
    ensures h.Some? ==> HandlerId(h.value) == id
    ensures h.None? <==> id !in {SYSCALL_WRITE, SYSCALL_EXIT, SYSCALL_TRACE, SYSCALL_YIELD, SYSCALL_GET_TIME, SYSCALL_TASKINFO}
  {
    if id == SYSCALL_WRITE then Some(SysWrite)
    else if id == SYSCALL_EXIT then Some(SysExit)
    else if id == SYSCALL_TRACE then Some(SysTrace)
    else if id == SYSCALL_YIELD then Some(SysYield)
    else if id == SYSCALL_GET_TIME then Some(SysGetTime)
    else if id == SYSCALL_TASKINFO then Some(SysTaskInfo)
    else None
  }

  /** Every handler is reached by its own number, so the six numbers are
      distinct. */
  lemma RouteReachesEveryHandler(h: Handler)
    ensures Route(HandlerId(h)) == Some(h)
  {
  }

  // ---------------------------------------------------------------------
  // Runtime accounting as a function of the accounting state

  /** `LAST_ENTERING_TIME` and `APP_RUNTIME_CNT`. */
  datatype Accounts = Accounts(lastEnteringTime: nat, runtimeCnt: seq<(nat, nat)>)

  /** The milliseconds charged to all tasks together. */
  function Total(cnt: seq<(nat, nat)>): nat {
    if cnt == [] then 0 else cnt[0].0 + cnt[0].1 + Total(cnt[1..])
  }

  /** Replacing one task's pair changes the total by the difference. */
  lemma {:induction false} TotalUpdate(cnt: seq<(nat, nat)>, i: nat, x: (nat, nat))
    requires i < |cnt|
    ensures Total(cnt[i := x]) + cnt[i].0 + cnt[i].1 == Total(cnt) + x.0 + x.1
  {
    if i > 0 {
      TotalUpdate(cnt[1..], i - 1, x);
      assert cnt[i := x][1..] == cnt[1..][i - 1 := x];
    }
  }

  /** Kernel entry: the time since the last entry is charged to the task's
      user counter, and the entry time is recorded. */
  function EnterKernel(a: Accounts, taskid: nat, timeAtStart: nat): (b: Accounts)
    requires taskid < |a.runtimeCnt|
    requires a.lastEnteringTime <= timeAtStart
    ensures b.lastEnteringTime == timeAtStart
    ensures |b.runtimeCnt| == |a.runtimeCnt|
    ensures b.runtimeCnt[taskid].0 == a.runtimeCnt[taskid].0 + (timeAtStart - a.lastEnteringTime)
    ensures b.runtimeCnt[taskid].1 == a.runtimeCnt[taskid].1
    ensures forall j :: 0 <= j < |a.runtimeCnt| && j != taskid ==> b.runtimeCnt[j] == a.runtimeCnt[j]
    ensures Total(b.runtimeCnt) == Total(a.runtimeCnt) + (timeAtStart - a.lastEnteringTime)
  {
    var c := a.runtimeCnt[taskid];
    var c' := (c.0 + (timeAtStart - a.lastEnteringTime), c.1);
    TotalUpdate(a.runtimeCnt, taskid, c');
    Accounts(timeAtStart, a.runtimeCnt[taskid := c'])
  }

  /** Kernel exit: the time spent in the call is charged to the kernel
      counter of the task that entered; the entry time is left as it was. */
  function LeaveKernel(a: Accounts, taskid: nat, timeAtStart: nat, timeNow: nat): (b: Accounts)
    requires taskid < |a.runtimeCnt|
    requires timeAtStart <= timeNow
    ensures b.lastEnteringTime == a.lastEnteringTime
    ensures |b.runtimeCnt| == |a.runtimeCnt|
    ensures b.runtimeCnt[taskid].0 == a.runtimeCnt[taskid].0
    ensures b.runtimeCnt[taskid].1 == a.runtimeCnt[taskid].1 + (timeNow - timeAtStart)
    ensures forall j :: 0 <= j < |a.runtimeCnt| && j != taskid ==> b.runtimeCnt[j] == a.runtimeCnt[j]
    ensures Total(b.runtimeCnt) == Total(a.runtimeCnt) + (timeNow - timeAtStart)
  {
    var c := a.runtimeCnt[taskid];
    var c' := (c.0, c.1 + (timeNow - timeAtStart));
    TotalUpdate(a.runtimeCnt, taskid, c');
    Accounts(a.lastEnteringTime, a.runtimeCnt[taskid := c'])
  }

  /** Kernel exit as the accounting evidently intends it: as `LeaveKernel`,
      and the clock at exit becomes the reference point for the next user
      interval. */
  function LeaveKernelCorrected(a: Accounts, taskid: nat, timeAtStart: nat, timeNow: nat): (b: Accounts)
    requires taskid < |a.runtimeCnt|
    requires timeAtStart <= timeNow
    ensures b.lastEnteringTime == timeNow
    ensures b.runtimeCnt == LeaveKernel(a, taskid, timeAtStart, timeNow).runtimeCnt
    ensures Total(b.runtimeCnt) == Total(a.runtimeCnt) + (timeNow - timeAtStart)
  {
    LeaveKernel(a, taskid, timeAtStart, timeNow).(lastEnteringTime := timeNow)
  }

  /** One completed call: the task that was running at entry, and the clock
      at entry and after the handler. */
  datatype CallTiming = CallTiming(taskid: nat, timeAtStart: nat, timeNow: nat)

  /** Calls one after the other, each naming a task that has counters, on a
      clock that never runs backwards. */
  predicate Sequential(a: Accounts, calls: seq<CallTiming>) {
    && (forall k :: 0 <= k < |calls| ==> calls[k].taskid < |a.runtimeCnt|)
    && (forall k :: 0 <= k < |calls| ==> calls[k].timeAtStart <= calls[k].timeNow)
    && (forall k :: 0 <= k < |calls| - 1 ==> calls[k].timeNow <= calls[k + 1].timeAtStart)
    && (|calls| > 0 ==> a.lastEnteringTime <= calls[0].timeAtStart)
  }

  /** The accounting after a run of calls, as the entry point does it. */
  function RunAsWritten(a: Accounts, calls: seq<CallTiming>): (b: Accounts)
    requires Sequential(a, calls)
    ensures |b.runtimeCnt| == |a.runtimeCnt|
    decreases |calls|
  {
    if calls == [] then a
    else
      var c := calls[0];
      var a' := LeaveKernel(EnterKernel(a, c.taskid, c.timeAtStart), c.taskid, c.timeAtStart, c.timeNow);
      assert Sequential(a', calls[1..]);
      RunAsWritten(a', calls[1..])
  }

  /** The accounting after a run of calls, with the corrected exit. */
  function RunCorrected(a: Accounts, calls: seq<CallTiming>): (b: Accounts)
    requires Sequential(a, calls)
    ensures |b.runtimeCnt| == |a.runtimeCnt|
    decreases |calls|
  {
    if calls == [] then a
    else
      var c := calls[0];
      var a' := LeaveKernelCorrected(EnterKernel(a, c.taskid, c.timeAtStart), c.taskid, c.timeAtStart, c.timeNow);
      assert Sequential(a', calls[1..]);
      RunCorrected(a', calls[1..])
  }

  /** The milliseconds the calls spend between entry and the handler's return. */
  function HandlerTime(calls: seq<CallTiming>): int {
    if calls == [] then 0 else calls[0].timeNow - calls[0].timeAtStart + HandlerTime(calls[1..])
  }

  /** As written, the counters grow by the clock's advance up to the last
      entry plus the time of every handler: the time of each handler but the
      last is charged twice, once as kernel time and again as user time at
      the next entry. */
  lemma {:induction false} AsWrittenRuntime(a: Accounts, calls: seq<CallTiming>)
    requires Sequential(a, calls)
    ensures var b := RunAsWritten(a, calls);
      Total(b.runtimeCnt) == Total(a.runtimeCnt) + (b.lastEnteringTime - a.lastEnteringTime) + HandlerTime(calls)
    decreases |calls|
  {
    if calls != [] {
      var c := calls[0];
      var a' := LeaveKernel(EnterKernel(a, c.taskid, c.timeAtStart), c.taskid, c.timeAtStart, c.timeNow);
      assert Sequential(a', calls[1..]);
      AsWrittenRuntime(a', calls[1..]);
    }
  }

  /** A witness: one task, two calls, 20 ms of wall clock, 25 ms charged. */
  lemma AsWrittenOvercounts()
    ensures var a := Accounts(0, [(0, 0)]);
      var calls := [CallTiming(0, 10, 15), CallTiming(0, 20, 20)];
      Sequential(a, calls) &&
      RunAsWritten(a, calls).runtimeCnt == [(20, 5)] &&
      Total(RunAsWritten(a, calls).runtimeCnt) > calls[1].timeNow - a.lastEnteringTime
  {
  }

  /** With the corrected exit, the counters of all tasks together grow by
      exactly the wall-clock time from the first reference point to the end
      of the last call, which is the last reference point. */
  lemma {:induction false} CorrectedRuntimeMatchesClock(a: Accounts, calls: seq<CallTiming>)
    requires Sequential(a, calls)
    ensures var b := RunCorrected(a, calls);
      && a.lastEnteringTime <= b.lastEnteringTime
      && (calls != [] ==> b.lastEnteringTime == calls[|calls| - 1].timeNow)
      && Total(b.runtimeCnt) == Total(a.runtimeCnt) + (b.lastEnteringTime - a.lastEnteringTime)
    decreases |calls|
  {
    if calls != [] {
      var c := calls[0];
      var a' := LeaveKernelCorrected(EnterKernel(a, c.taskid, c.timeAtStart), c.taskid, c.timeAtStart, c.timeNow);
      assert Sequential(a', calls[1..]);
      CorrectedRuntimeMatchesClock(a', calls[1..]);
    }
  }

  // ---------------------------------------------------------------------
  // The entry point

  /** How a call ends: with the handler's result, or in the kernel panic for
      an unsupported call number. */
  datatype Outcome = Returned(ret: isize) | Panicked

  /** The accounting globals and the entry point that updates them. */
  class SyscallAccounting {
    var lastEnteringTime: nat
    const appRuntimeCnt: array<(nat, nat)>

    /** The accounting state as a value. */
    function Snapshot(): Accounts
      reads this, appRuntimeCnt
    {
      Accounts(lastEnteringTime, appRuntimeCnt[..])
    }

    /** The globals as the kernel starts: no time recorded, one zeroed pair
        for each of `maxAppNum` tasks. */
    constructor (maxAppNum: nat)
      ensures fresh(appRuntimeCnt) && appRuntimeCnt.Length == maxAppNum
      ensures lastEnteringTime == 0
      ensures forall j :: 0 <= j < maxAppNum ==> appRuntimeCnt[j] == (0, 0)
    {
      lastEnteringTime := 0;
      appRuntimeCnt := new (nat, nat)[maxAppNum](_ => (0, 0));
    }

    /** `syscall`: charges the user time since the last entry to the task
        running at entry, records the entry time, dispatches, and charges the
        handler's time to the kernel counter of that same task.  `handle`
        stands for the handlers; `timeAtStart` and `timeNow` for the clock
        read before and after dispatch. */
    method Syscall(id: usize, args: seq<usize>, taskid: nat, timeAtStart: nat, timeNow: nat,
                   handle: (Handler, seq<usize>) -> isize) returns (outcome: Outcome)
      requires |args| == 3
      requires taskid < appRuntimeCnt.Length
      requires lastEnteringTime <= timeAtStart <= timeNow
      modifies this, appRuntimeCnt
      ensures Route(id).None? ==> outcome == Panicked
      ensures Route(id).Some? ==> outcome == Returned(handle(Route(id).value, args))
      ensures var entered := EnterKernel(old(Snapshot()), taskid, timeAtStart);
        Snapshot() == if outcome.Panicked? then entered else LeaveKernel(entered, taskid, timeAtStart, timeNow)
      ensures lastEnteringTime == timeAtStart
      ensures appRuntimeCnt[taskid].0 == old(appRuntimeCnt[taskid].0) + (timeAtStart - old(lastEnteringTime))
      ensures appRuntimeCnt[taskid].1 ==
                old(appRuntimeCnt[taskid].1) + (if outcome.Returned? then timeNow - timeAtStart else 0)
      ensures forall j :: 0 <= j < appRuntimeCnt.Length && j != taskid ==> appRuntimeCnt[j] == old(appRuntimeCnt[j])
    {
      appRuntimeCnt[taskid] := (appRuntimeCnt[taskid].0 + (timeAtStart - lastEnteringTime), appRuntimeCnt[taskid].1);
      lastEnteringTime := timeAtStart;
      var h := Route(id);
      if h.None? {
        return Panicked;
      }
      var ret := handle(h.value, args);
      appRuntimeCnt[taskid] := (appRuntimeCnt[taskid].0, appRuntimeCnt[taskid].1 + (timeNow - timeAtStart));
      outcome := Returned(ret);
    }
  }
}
