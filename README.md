# xv6 scheduling core with switchable policies, in Dafny

This project models the process table and scheduler of `proc.c` from an xv6
kernel that has been extended with three scheduling policies:

- round-robin over a FIFO;
- priority scheduling, which dispatches the queued process with the smallest
  fairness accumulator;
- extended priority, which does the same except that every 100th decision
  is an aging decision taking the least recently dispatched RUNNABLE process.

The model covers:

- process lifecycle in the table: `allocproc`, the scheduling tails of `fork`
  and `userinit`, `exit`, `wait`, `wait_stat`, `kill`, `detach`, `sleep`,
  `wakeup1` and `yield`;
- policy control: `policy`, `priority`, `set_all_accumulators` and
  `set_filtered_priorities`;
- the dispatch rules `sp_round_robin`, `sp_priority` and `sp_ext_priority`,
  with `proc_to_run` and `proc_with_min_timestamp`;
- dispatch bookkeeping in `swtch_to_proc`;
- the fairness baseline `get_min_acc` and the time counters of
  `update_pref_field`.

Files:

- `proc_defs.dfy` (module `ProcDefs`): the constants of `proc.h` and the
  process record. A process is identified by its slot index, so `parent` is
  a slot or `None`. A sleep channel is either the null channel, a
  process-table slot, or another kernel address.
- `fairness.dfy` (module `Fairness`): the pure part of the fairness
  baseline. It holds `min`, `get_min_acc` over the contents of the priority
  queue and the running holder, and the lemma that putting a process with
  the baseline as its key leaves the baseline where it was.
- `processes.dfy` (module `Processes`): the class `ProcTable`. Its fields:
  - `procs`: an `array` of records;
  - `nextPid`, `initProc` and the active `policy`;
  - `tqTimestamp`: the dispatch stamp;
  - `rrq`: the round-robin FIFO, as a sequence of slots;
  - `pq`: the priority queue, as a map from each queued slot to the key it
    was put with;
  - `running`: the running holder, as a set of slots.

  Every entry point of `proc.c` that takes `ptable.lock` is one method. It
  keeps the whole-table invariant `Valid()`:
  - a slot is RUNNABLE exactly when it is in the active policy's ready queue;
  - a slot is RUNNING exactly when it is in the running holder;
  - only the active policy's queue holds anything, and the FIFO holds no
    slot twice;
  - pids of used slots are distinct and below `nextpid`;
  - every last-dispatch stamp is below `tq_timestamp`;
  - priorities lie in 0..10, and 0 never occurs under policy 2.

The methods that loop over the table are proved against pure functions of
the table before the loop: `WakeupAll`, `Exited`, `AccumulatorsSet`,
`PrioritiesFiltered` and `FifoKeys`. Lemmas state what those functions mean.

The three queue classes (`PriorityQueue`, `RoundRobinQueue`,
`RunningProcessesHolder`) are not part of this model, so they are specified
abstractly:

- `pq.put` stores the accumulator the process has at that moment as its key.
- `pq.extractMin` returns some slot with a minimal key. Ties are not assumed
  to be broken in any particular order.
- `pq.extractProc` removes one given slot.
- `pq.getMinAccumulator` is the smallest stored key.
- `rpholder.getMinAccumulator` is the smallest current accumulator of a
  running process.
- `pq.switchToRoundRobinPolicy` appends every queued slot to the FIFO once,
  in an order left open.
- `rrq.switchToPriorityQueuePolicy` puts every slot of the FIFO into the
  priority queue, keyed by its accumulator.

The context switch (`swtch`) is an abstract step. The dispatched process
yields, sleeps on a channel or exits (`Step`). Control then comes back to the
scheduler, which takes the process out of the running holder.

## Behaviour modelled as the code has it

- The fairness baseline is given to a new or woken process only under
  policy 2, never under policy 3. This applies in `userinit`, `fork` and
  `wakeup1`: each tests `current_sched_strat == SP_ps` alone, so under
  policy 3 a new or woken process keeps its own accumulator.
- `userinit` and `fork` put the process into the ready queue before they set
  its accumulator. Under policy 2 its queue key is therefore the accumulator
  the slot held before, not the baseline it is then given.
- `sp_priority` and `sp_ext_priority` add the priority to the accumulator
  after `yield` has already put the process back. The queue keeps the old
  key (`Charged`).
- `sleep` and `exit` add `-ticks` to `rutime` when the running interval
  closes, while `yield` adds `+ticks`. A run that ends in sleep or exit
  therefore subtracts both the dispatch tick and the leaving tick
  (`RunIntervalAccounting`).
- `policy(3)` issued under policy 2 or 3 takes the `else` branch, so it
  rewrites priority 0 to 1, exactly as a switch to policy 2 does.
- `kill` wakes a sleeping process without giving it the baseline.
- `detach` does not look at whether the child is still alive: a ZOMBIE
  child with the pid is handed to initproc as well.
- `exit` wakes the waiters on the parent before it passes the children on.
  It then runs `wakeup1(initproc)` at each zombie child it meets.
- A `kalloc` that fails in `allocproc` leaves the slot UNUSED but keeps the
  pid it was given, and `nextpid` stays advanced.
- The priority queue's code is not part of this model, so which of several
  slots with equal keys `extractMin` takes is left open.

## Model

| member | source | states |
|---|---|---|
| Fairness.Min | proc.c:799-801 | `min` returns one of its two arguments and is at most both |
| Fairness.MinBelow | proc.c:786-791 | the minimum stored value over the slots below n: absent exactly when no slot is present, attained by a present slot, and at most every present value |
| Fairness.Baseline | proc.c:786-797 | `get_min_acc` is at most every queued key and every running accumulator, is 0 when both structures are empty, and is attained by one of them when a value up to LLONG_MAX is present |
| Fairness.BaselineAfterPut | proc.c:501-508 | putting a process into the queue with the current baseline as its key leaves the baseline unchanged, so every process one `wakeup1` scan wakes under policy 2 gets the same accumulator |
| ProcDefs.Int32 | proc.h:24-30 | the narrowing of a long long counter into an `int` field of struct perf lands in the 32-bit range, keeps every value already in range, and differs from the original by a multiple of 2^32 |
| Processes.First | proc.c:104-106 | the table scans return the first slot that matches, and None exactly when no slot matches |
| Processes.SleepersOn | proc.c:501-508 | the slots `wakeup1` appends to the FIFO are exactly those sleeping on the channel, in increasing table order |
| Processes.WokenKeys | proc.c:501-508 | the queue entries `wakeup1` adds are exactly the sleepers on the channel, each keyed by the baseline under policy 2 and by its own accumulator otherwise |
| Processes.WakeupAll | proc.c:497-511 | after `wakeup1` every slot sleeping on the channel is RUNNABLE, its sleep interval closed and a ready interval opened; every other slot is unchanged |
| Processes.ExitScanMove | proc.c:297-303 | at slot k of exit's scan the record still has its parent from before the scan, and handing a child of the exiting process to initproc completes that slot |
| Processes.ExitScanWake | proc.c:300-301 | the `wakeup1(initproc)` at a zombie child wakes initproc's waiters across the whole table, with the same baseline as the first wakeup under policy 2 |
| Processes.ExitScanAfterWakeup | proc.c:294-303 | the zombie children exit's scan meets are those of the table before the wakeup of the parent, and the baseline of the second wakeup matters only under policy 2, where it has not moved |
| Processes.ExitScanKeepsRunning | proc.c:294-303 | neither of exit's wakeups changes the exiting RUNNING process's state |
| Processes.ExitScanSleepers | proc.c:298-302 | the `wakeup1(initproc)` during the scan finds initproc's waiters of the table the scan started from, or none once a wakeup has already run; handing children over changes no sleeper or key |
| Processes.ZombieChildAfterWakeup | proc.c:294-299 | the wakeup of the parent wakes no zombie, so whether a zombie child is met is decided by the table before it |
| Processes.ExitQueued | proc.c:294-302 | the wakeup of the parent followed by the scan's wakeup of initproc together enqueue exactly `ExitFifo` or `ExitKeys` |
| Processes.ExitedOthers | proc.c:294-303 | for every other slot, exit hands a child of the exiting process to initproc, wakes it if it sleeps on the parent or (when a zombie child was passed on) on initproc, and changes nothing else |
| Processes.ExitedSelf | proc.c:305-310 | the exiting process keeps its record except for its exit status, `rutime - ticks`, state ZOMBIE and termination tick `ticks` |
| Processes.ExitedLeavesNoOrphans | proc.c:297-303 | after exit no slot has the exiting process as parent, unless it is initproc itself |
| Processes.ZombieRecord | proc.c:305-310 | the three record updates of exit produce the zombie record |
| Processes.YieldRecord | proc.c:420-422 | the record updates of `yield` close the running interval with `+ticks` and open a ready interval |
| Processes.DispatchRecord | proc.c:737-743 | the record updates of `swtch_to_proc` close the ready interval, make the process RUNNING, open its running interval and stamp it |
| Processes.RunIntervalAccounting | proc.c:737-741 | a run from dispatch at t0 that ends in yield at t1 adds `t1 - t0` to `rutime`; one that ends in sleep or exit subtracts `t0 + t1` |
| Processes.KilledThenAwakened | proc.c:533-538 | `kill` setting the killed flag before waking the process gives the same record as waking it first |
| Processes.ProcTable.constructor | proc.c:23-40 | at boot every slot is zeroed, the policy is round-robin, and `nextpid` and `tq_timestamp` are 1, all queues empty |
| Processes.ProcTable.GetMinAcc | proc.c:786-797 | the baseline is at most every queued key and every running process's accumulator, and 0 when nothing is queued or running |
| Processes.ProcTable.FindFirst | proc.c:104-106 | the loop over the table returns the first slot that matches the query |
| Processes.ProcTable.UpdatePerfField | proc.c:847-870 | adds delta to stime, retime or rutime; CTIME, TTIME and unknown fields are a panic that changes nothing |
| Processes.ProcTable.EnqueueByState | proc.c:721-728 | a RUNNABLE slot is appended to the FIFO under policy 1, and put into the priority queue with its current accumulator under policies 2 and 3 |
| Processes.ProcTable.Sched | proc.c:755-758 | the scheduler takes the process that gave up the CPU out of the running holder, restoring the invariant |
| Processes.ProcTable.Yield | proc.c:415-426 | the running process becomes RUNNABLE with `rutime + ticks` and `retime - ticks`, is enqueued in the active queue with its accumulator and leaves the running holder; the other queue and every other slot are unchanged |
| Processes.ProcTable.Sleep | proc.c:472-481 | the running process records its channel, closes its running interval with `-ticks`, becomes SLEEPING with `stime - ticks` and leaves the running holder; no other slot changes |
| Processes.ProcTable.AllocProc | proc.c:96-121 | the first UNUSED slot becomes EMBRYO with pid `nextpid` and `nextpid` grows by one; with no UNUSED slot nothing changes; a failed stack allocation turns the slot back to UNUSED |
| Processes.ProcTable.FreeEmbryo | proc.c:223-228 | the failure path of fork turns the new slot back to UNUSED and changes nothing else |
| Processes.ProcTable.BecomeRunnable | proc.c:247-251 | a new process becomes RUNNABLE; a forked one also gets its creation tick and `retime - ticks` |
| Processes.ProcTable.SetNewPriority | proc.c:255 | the new process gets priority NP_PRIORITY |
| Processes.ProcTable.SetBaselineIfPriority | proc.c:257-258 | under policy 2 only, the process gets the baseline as accumulator, which does not move the baseline |
| Processes.ProcTable.MakeRunnable | proc.c:245-260 | the new process is RUNNABLE, queued with the accumulator it had, has priority NP_PRIORITY and, under policy 2 only, the baseline as accumulator |
| Processes.ProcTable.Fork | proc.c:211-263 | -1 with the table unchanged when no slot is free, and -1 with the slot back to UNUSED when the stack or address space fails; otherwise the child's pid, with the child RUNNABLE, parented to the caller and queued |
| Processes.ProcTable.UserInit | proc.c:144-184 | the first UNUSED slot becomes initproc, RUNNABLE with pid `nextpid` and priority NP_PRIORITY, queued in the active queue only (the other queue unchanged), with the baseline as accumulator under policy 2 and its old accumulator under policies 1 and 3; every other field of its record (ctime, retime, rutime, stime, ttime, killed, status, parent) is unchanged, so unlike fork no creation tick is recorded and no ready interval is opened; `nextpid` grows by one and no other slot changes. With no UNUSED slot nothing changes; a failed stack allocation leaves the slot UNUSED with the pid taken, and neither queue nor initproc changes |
| Processes.ProcTable.Awaken | proc.c:503-507 | a sleeping process closes its sleep interval, becomes RUNNABLE with the given accumulator and opens a ready interval |
| Processes.ProcTable.WakeOne | proc.c:502-508 | a sleeping process is awakened and enqueued in the active queue with the accumulator it was given |
| Processes.ProcTable.WakeUp1 | proc.c:497-511 | the table becomes `WakeupAll` of the table before; the FIFO grows by the sleepers in table order (`SleepersOn`), or the priority queue by their entries (`WokenKeys`), the other queue unchanged; under policy 2 the baseline does not move |
| Processes.ProcTable.ScanSleepers | proc.c:501-510 | the loop of `wakeup1` reaches the state `WakeupAll` describes, with the queues grown accordingly |
| Processes.ProcTable.Kill | proc.c:526-547 | 0 exactly when some slot has the pid: the first one is marked killed and, only if it sleeps, woken and enqueued with its own accumulator; otherwise -1 and nothing changes |
| Processes.ProcTable.MarkKilled | proc.c:533 | sets the killed flag of one slot and nothing else |
| Processes.ProcTable.Detach | proc.c:597-612 | 0 exactly when a child of the caller has the pid, and then its parent becomes initproc; otherwise -1 and nothing changes |
| Processes.ProcTable.SetParent | proc.c:605 | changes one slot's parent and nothing else, leaving the baseline unchanged |
| Processes.ProcTable.SetPriority | proc.c:615-619 | the caller's priority becomes v exactly when 1 <= v <= 10, or v = 0 under policy 3; otherwise nothing changes |
| Processes.ProcTable.Reap | proc.c:334-342 | a ZOMBIE slot becomes UNUSED with pid 0, no parent and the killed flag cleared |
| Processes.ProcTable.WaitStat | proc.c:653-703 | the first zombie child is reaped, no other slot changes, and its pid, exit status and five counters, each narrowed to a 32-bit int, are returned; with no children, or when the caller is killed, -1 and nothing changes; otherwise the caller sleeps on itself, leaves the running holder, and no other slot changes |
| Processes.ProcTable.Wait | proc.c:318-359 | as `wait_stat`, without the counters: the same reaped slot, the same frames on the other slots and on the running holder in each of the three outcomes |
| Processes.ProcTable.Exit | proc.c:269-313 | a panic with nothing changed exactly when the caller is initproc; otherwise the table becomes `Exited` of the table before, the caller leaves the running holder, and the active queue grows by exactly the two wakeups' sleepers (`ExitFifo` in table order under policy 1, `ExitKeys` under policies 2 and 3) while the other queue is unchanged |
| Processes.ProcTable.ExitAsChild | proc.c:291-311 | exit of a process other than initproc: the table becomes `Exited`, the caller leaves the running holder and the queues grow by `ExitFifo` or `ExitKeys` |
| Processes.ProcTable.LeaveChildren | proc.c:293-303 | the waiters on the parent are woken, then the children are handed to initproc with initproc's waiters woken if one of them is a zombie; the caller stays RUNNING, and the queues grow by `ExitFifo` or `ExitKeys` of the table before |
| Processes.ProcTable.ReparentChildren | proc.c:296-303 | every child of the exiting process goes to initproc, and initproc's waiters are woken if one of them is a zombie; the active queue grows by those waiters exactly when a zombie child is met, and the baseline does not move under policy 2 |
| Processes.ProcTable.ScanChildren | proc.c:297-303 | the loop over every slot ends with each child handed to initproc, `woke` telling whether one was a zombie, and the queues grown by initproc's waiters in that case only |
| Processes.ProcTable.ExitScanSlot | proc.c:298-302 | one slot of the scan: a child is handed to initproc and, if it is a zombie, initproc's waiters are woken, keeping the scan's table and queue invariant |
| Processes.ProcTable.ExitWakeInit | proc.c:300-301 | the `wakeup1(initproc)` inside the scan enqueues initproc's waiters exactly once however many zombie children are met |
| Processes.ProcTable.BecomeZombie | proc.c:305-310 | the exiting process records its status, closes its running interval with `-ticks` and becomes ZOMBIE with termination tick `ticks` |
| Processes.ProcTable.SetAllAccumulators | proc.c:705-710 | every slot's accumulator becomes the value and nothing else changes |
| Processes.ProcTable.SetFilteredPriorities | proc.c:712-718 | every slot whose priority equals the filter gets the value and nothing else changes |
| Processes.ProcTable.FifoToPriorityQueue | proc.c:628-629 | the FIFO is emptied into the priority queue, each slot keyed by its current accumulator |
| Processes.ProcTable.PriorityQueueToFifo | proc.c:634 | the priority queue is emptied and each of its slots appended to the FIFO exactly once |
| Processes.ProcTable.Policy | proc.c:623-650 | an id outside 1..3 is a panic that changes nothing. Target 1 resets every accumulator to 0 and appends the priority queue's slots to the FIFO. Target 3 under policy 1 moves the FIFO into the priority queue. Any other target rewrites priority 0 to 1 and moves the FIFO over when leaving policy 1. The policy is then the target |
| Processes.ProcTable.SwitchIn | proc.c:730-746 | the picked process closes its ready interval, becomes RUNNING, opens its running interval and gets the old stamp; the stamp grows by exactly one and the process joins the running holder |
| Processes.ProcTable.RunStep | proc.c:748-758 | the dispatched process takes its step: initproc's exit is a panic with nothing changed; otherwise the table becomes `AfterStep` of the table before (yield, sleep or `Exited`), the process leaves the running holder, and the active queue grows by `FifoAfterStep` or `KeysAfterStep` (the process itself after a yield, nothing after a sleep, exit's wakeups after an exit) |
| Processes.ProcTable.Accumulate | proc.c:777-779 | the accumulator grows by the process's priority and nothing else changes |
| Processes.ProcTable.ExtractMin | proc.c:774 | the slot taken out of the priority queue has a minimal key and is RUNNABLE |
| Processes.ProcTable.ProcWithMinTimestamp | proc.c:829-844 | the RUNNABLE slot with the smallest last stamp, the first in table order among equals, taken out of the priority queue |
| Processes.ProcTable.ExtractProc | proc.c:842 | the given slot is taken out of the priority queue |
| Processes.ProcTable.ProcToRun | proc.c:821-827 | when `tq_timestamp` is a multiple of 100 the oldest RUNNABLE slot, otherwise a slot with a minimal key, is taken out of the priority queue |
| Processes.ProcTable.SpRoundRobin | proc.c:762-767 | nothing changes exactly when the FIFO is empty; otherwise its head is dequeued and dispatched, and the whole new state is the `DispatchedRound` from the rest of the FIFO, with no charge |
| Processes.ProcTable.RunDequeued | proc.c:765 | the dequeued head is switched in and takes its step, giving exactly `DispatchedRound` with no charge |
| Processes.ProcTable.SpPriority | proc.c:771-784 | nothing changes exactly when the queue is empty; otherwise a slot with a minimal key is taken out and dispatched, and the whole new state is the `DispatchedRound` from the queue without it: a yielded process is queued with its old accumulator while its accumulator grows by its priority |
| Processes.ProcTable.SpExtPriority | proc.c:805-819 | as `sp_priority`, except that every 100th decision dispatches the oldest RUNNABLE slot; the whole new state is the `DispatchedRound` from the queue without the picked slot |
| Processes.ProcTable.RunAndCharge | proc.c:809-817 | the picked slot is switched in, takes its step and, if it comes back RUNNABLE, is charged its priority: the new table, queues, running holder and stamp are exactly `DispatchedRound` |
| Processes.ProcTable.Schedule | proc.c:370-385 | one scheduler pass runs the active policy's rule: idle with nothing changed exactly when both queues are empty; otherwise policy 1 dispatches the FIFO's head, policy 2 a minimal key, policy 3 the oldest RUNNABLE slot on every 100th decision and a minimal key otherwise, each followed by that round's `DispatchedRound` |

## Left out

- Virtual memory, files, the trapframe and context setup, `growproc`,
  `forkret`, `procdump`, and the CPU and interrupt plumbing (`mycpu`,
  `cpuid`, `myproc`, `pushcli`/`popcli`, `sti`) are not part of this model.
  The allocation of the kernel stack and the copy of the address space are
  boolean parameters.
- The lock and the concurrency across CPUs are not modelled. Each locked
  section is one method, and running processes are slots in the running
  holder. `wakeup`, the locking wrapper around `wakeup1`, is not modelled.
- The panics of `sched` that check the lock depth, the interrupt flag and
  the state are not modelled. The `enqueue_by_state` panic for an unknown
  policy cannot happen under the invariant.
- `swtch` is an abstract step, `Step`, in which the dispatched process
  yields, sleeps or exits.
- Processes.ProcTable.RunStep: the dispatched process does nothing else
  during its quantum. A `priority()` call made while it runs, which changes
  what `sp_priority` then adds to its accumulator (proc.c:779-781), and a
  `policy()` call made while it runs, after which the scheduler's charge
  follows `set_all_accumulators(0)` or a queue switch, are not covered by
  `DispatchedRound`; each of those calls is modelled on its own
  (`SetPriority`, `Policy`).
- `param.h` is not part of this model. The table size NPROC is taken as 64,
  the value xv6 uses.
- `policy.c` (a command-line wrapper) and `sanity.c` (a user test) are not
  part of this model.
- Processes.ProcTable.Sleep: the lock handover and the `p->chan = 0` after
  the process is woken again (proc.c:483-490) are left out, because they
  run after the sleep's context switch.
- Processes.ProcTable.Wait: one pass of the retry loop is modelled. `Blocked`
  means the caller went to sleep and retries once woken.
- Processes.ProcTable.WaitStat: one pass of the retry loop, as for `Wait`.
- Processes.ProcTable.UserInit: when `allocproc` fails the source
  dereferences a null process. The model returns None with `initProc`
  unchanged.
- Processes.ProcTable.SetFilteredPriorities: requires `0 < value <= 10` so
  that the invariant on priorities is kept. Its only caller passes 1.
- Processes.ProcTable.Schedule: requires `tqTimestamp < LLONG_MAX`. The stamp
  is a long long, and the model does not let it overflow. The same requirement is on
  SpRoundRobin, SpPriority, SpExtPriority, RunAndCharge and SwitchIn.
- Processes.ProcTable.ExtractMin: does not fix which slot among equal minimal
  keys is taken, since the queue's implementation is not part of this model.
- Processes.ProcTable.PriorityQueueToFifo: does not fix the order in which
  the slots reach the FIFO, for the same reason.
- Processes.ProcTable.Accumulate: accumulators are unbounded integers. A
  long long overflow of `accumulator += priority` is not modelled.
- Processes.ProcTable.UpdatePerfField: the counters are unbounded integers.
  The conversion of the unsigned `ticks` to a negative `int` is read as
  plain negation.
- Processes.ProcTable.AllocProc: `nextpid` is an unbounded integer, so its
  `int` overflow is not modelled.
