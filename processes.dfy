/** The process table of proc.c and the scheduler state guarded by its lock:
    allocation, creation, exit, reaping, sleep and wakeup, kill, detach, the
    priority and policy controls, and the three dispatch rules. Each method is
    one critical section under ptable.lock. */
module Processes {
  import opened ProcDefs
  import opened Fairness

  /** What a dispatched process does before control comes back to its
      scheduler: yield, go to sleep on a channel, or exit. Each carries the
      tick count at that moment. */
  datatype Step = YieldStep(ticks: nat) | SleepStep(chan: Chan, ticks: nat) | ExitStep(status: int, ticks: nat)

  /** The result of one scheduling round: nothing was ready, or `slot` was
      dispatched; `halted` when the round ended in a kernel panic. */
  datatype Dispatch = Idle | Ran(slot: nat, halted: bool)

  /** One pass of wait/wait_stat: a zombie child was reaped, the caller has no
      children (or was killed), or the caller went to sleep to retry later. */
  datatype WaitOutcome = Reaped(pid: int, status: int) | NoChildren | Blocked

  /** The table scans of proc.c, each looking for the first slot that matches. */
  datatype Query = UnusedSlot | WithPid(pid: int) | ChildWithPid(parent: nat, pid: int) | ZombieChild(parent: nat) | ChildOf(parent: nat)

  predicate Matches(q: Query, p: Proc)
  {
    match q
    case UnusedSlot => p.state == Unused
    case WithPid(pid) => p.pid == pid
    case ChildWithPid(parent, pid) => p.parent == Some(parent) && p.pid == pid
    case ZombieChild(parent) => p.parent == Some(parent) && p.state == Zombie
    case ChildOf(parent) => p.parent == Some(parent)
  }

  /** The index of the first slot of `ps` that matches `q`. */
  function First(ps: seq<Proc>, q: Query): (r: Option<nat>)
    ensures r.None? <==> forall j :: 0 <= j < |ps| ==> !Matches(q, ps[j])
    ensures r.Some? ==> r.value < |ps| && Matches(q, ps[r.value])
    ensures r.Some? ==> forall j :: 0 <= j < r.value ==> !Matches(q, ps[j])
    decreases |ps|
  {
    if ps == [] then None
    else if Matches(q, ps[0]) then Some(0)
    else
      var r := First(ps[1..], q);
      assert forall j :: 1 <= j < |ps| ==> ps[j] == ps[1..][j - 1];
      if r.None? then None else Some(r.value + 1)
  }

  /** The record of a sleeping process after it is made RUNNABLE: its sleep
      interval closes and a ready interval opens at `ticks`. */
  function Awakened(p: Proc, ticks: int, acc: int): Proc
  {
    p.(state := Runnable, stime := p.stime + ticks, retime := p.retime - ticks, accumulator := acc)
  }

  /** The accumulator wakeup1 gives a process it wakes: the fairness
      baseline under the priority policy, its own otherwise. */
  function WakeKey(p: Proc, policy: int, baseline: int): int
  {
    if policy == SP_PS then baseline else p.accumulator
  }

  /** A record after wakeup1(chan) at `ticks`. */
  function AfterWakeup(p: Proc, chan: Chan, ticks: int, policy: int, baseline: int): Proc
  {
    if SleepsOn(p, chan) then Awakened(p, ticks, WakeKey(p, policy, baseline)) else p
  }

  /** Whether wakeup1(chan) wakes this record. */
  predicate SleepsOn(p: Proc, chan: Chan)
  {
    p.state == Sleeping && p.chan == chan
  }

  /** The slots below n that sleep on chan, in table order. */
  function SleepersOn(ps: seq<Proc>, chan: Chan, n: nat): (s: seq<nat>)
    requires n <= |ps|
    ensures forall k :: 0 <= k < |s| ==> s[k] < n && SleepsOn(ps[s[k]], chan)
    ensures forall i :: 0 <= i < n && SleepsOn(ps[i], chan) ==> i in s
    ensures forall a, b :: 0 <= a < b < |s| ==> s[a] < s[b]
  {
    if n == 0 then []
    else SleepersOn(ps, chan, n - 1) + (if SleepsOn(ps[n - 1], chan) then [n - 1] else [])
  }

  /** The priority-queue entries wakeup1(chan) adds for the slots below n:
      each sleeper on chan with the accumulator it is woken with. */
  function WokenKeys(ps: seq<Proc>, chan: Chan, n: nat, policy: int, baseline: int): (m: map<nat, int>)
    requires n <= |ps|
    ensures forall k: nat :: k in m <==> k < n && SleepsOn(ps[k], chan)
    ensures forall k :: k in m ==> m[k] == WakeKey(ps[k], policy, baseline)
  {
    if n == 0 then map[]
    else
      var m := WokenKeys(ps, chan, n - 1, policy, baseline);
      if SleepsOn(ps[n - 1], chan) then m[n - 1 := WakeKey(ps[n - 1], policy, baseline)] else m
  }

  /** A record during exit's scan over the table: woken by the wakeup1 on
      initproc once a zombie child has been passed on (`woke`), and handed to
      initproc if it is a child of `cur` the scan has already reached
      (`moved`). */
  function ExitStage(x: Proc, cur: nat, init: Option<nat>, moved: bool, woke: bool,
                     ticks: int, policy: int, baseline: int): Proc
  {
    var y := if woke then AfterWakeup(x, ChanOf(init), ticks, policy, baseline) else x;
    if moved && x.parent == Some(cur) then y.(parent := init) else y
  }

  /** The wakeup1 on initproc applied to a record of exit's scan. */
  lemma ExitStageWake(x: Proc, cur: nat, init: Option<nat>, moved: bool, woke: bool,
                      ticks: int, policy: int, baseline: int, b: int)
    requires policy == SP_PS ==> b == baseline
    ensures AfterWakeup(ExitStage(x, cur, init, moved, woke, ticks, policy, baseline), ChanOf(init), ticks, policy, b)
              == ExitStage(x, cur, init, moved, true, ticks, policy, baseline)
  {
  }

  /** The table during wakeup1(chan)'s scan once the slots below k are done. */
  function WakeupBelow(ps: seq<Proc>, k: nat, chan: Chan, ticks: int, policy: int, baseline: int): (r: seq<Proc>)
    ensures |r| == |ps|
  {
    seq(|ps|, j requires 0 <= j < |ps| => if j < k then AfterWakeup(ps[j], chan, ticks, policy, baseline) else ps[j])
  }

  /** The scan of wakeup1 done with slot k. */
  lemma WakeupBelowStep(ps: seq<Proc>, k: nat, chan: Chan, ticks: int, policy: int, baseline: int)
    requires k < |ps|
    ensures WakeupBelow(ps, k, chan, ticks, policy, baseline)[k := AfterWakeup(ps[k], chan, ticks, policy, baseline)]
              == WakeupBelow(ps, k + 1, chan, ticks, policy, baseline)
  {
  }

  /** Before wakeup1's scan starts nothing is woken yet. */
  lemma WakeupStart(ps: seq<Proc>, chan: Chan, ticks: int, policy: int, baseline: int,
                    rrq0: seq<nat>, pq0: map<nat, int>)
    ensures WakeupBelow(ps, 0, chan, ticks, policy, baseline) == ps
    ensures rrq0 + SleepersOn(ps, chan, 0) == rrq0
    ensures pq0 + WokenKeys(ps, chan, 0, policy, baseline) == pq0
  {
  }

  /** The table after wakeup1(chan) at `ticks`. */
  function WakeupAll(ps: seq<Proc>, chan: Chan, ticks: int, policy: int, baseline: int): (r: seq<Proc>)
    ensures |r| == |ps|
    ensures forall j :: 0 <= j < |ps| ==> r[j] == AfterWakeup(ps[j], chan, ticks, policy, baseline)
  {
    WakeupBelow(ps, |ps|, chan, ticks, policy, baseline)
  }

  /** The table during exit's scan once the slots below k are done, from the
      table mid the scan started with. */
  function ExitScan(mid: seq<Proc>, k: nat, woke: bool, cur: nat, init: Option<nat>,
                    ticks: int, policy: int, baseline: int): (r: seq<Proc>)
    ensures |r| == |mid|
  {
    seq(|mid|, j requires 0 <= j < |mid| => ExitStage(mid[j], cur, init, j < k, woke, ticks, policy, baseline))
  }

  /** Exit's scan starts from the table as it is. */
  lemma ExitScanStart(mid: seq<Proc>, cur: nat, init: Option<nat>, ticks: int, policy: int, baseline: int)
    ensures ExitScan(mid, 0, false, cur, init, ticks, policy, baseline) == mid
  {
  }

  /** The wakeup1 on initproc, applied to the whole table during exit's
      scan, counts as having woken initproc's waiters. */
  lemma {:induction false} ExitScanWake(mid: seq<Proc>, k: nat, woke: bool, cur: nat,
                                        init: Option<nat>, ticks: int, policy: int, baseline: int, b: int)
    requires policy == SP_PS ==> b == baseline
    ensures WakeupAll(ExitScan(mid, k, woke, cur, init, ticks, policy, baseline), ChanOf(init), ticks, policy, b)
              == ExitScan(mid, k, true, cur, init, ticks, policy, baseline)
  {
    var ps := ExitScan(mid, k, woke, cur, init, ticks, policy, baseline);
    var after := WakeupAll(ps, ChanOf(init), ticks, policy, b);
    forall j | 0 <= j < |ps|
      ensures after[j] == ExitScan(mid, k, true, cur, init, ticks, policy, baseline)[j]
    {
      ExitStageWake(mid[j], cur, init, j < k, woke, ticks, policy, baseline, b);
    }
  }

  /** Exit's scan at slot k: the record there still has its parent and its
      ZOMBIE-ness from before the scan, and handing it to initproc when it
      is a child of cur (and leaving it otherwise) completes slot k. */
  lemma ExitScanMove(mid: seq<Proc>, k: nat, woke: bool, cur: nat, init: Option<nat>,
                     ticks: int, policy: int, baseline: int)
    requires k < |mid|
    ensures var ps := ExitScan(mid, k, woke, cur, init, ticks, policy, baseline);
      && ps[k].parent == mid[k].parent
      && (ps[k].state == Zombie <==> mid[k].state == Zombie)
      && (mid[k].parent == Some(cur) ==>
            ps[k := ps[k].(parent := init)] == ExitScan(mid, k + 1, woke, cur, init, ticks, policy, baseline))
      && (mid[k].parent != Some(cur) ==> ps == ExitScan(mid, k + 1, woke, cur, init, ticks, policy, baseline))
  {
    var ps := ExitScan(mid, k, woke, cur, init, ticks, policy, baseline);
    var ps1 := ExitScan(mid, k + 1, woke, cur, init, ticks, policy, baseline);
    if mid[k].parent == Some(cur) {
      assert ps[k := ps[k].(parent := init)] == ps1 by {
        forall j | 0 <= j < |ps|
          ensures ps[k := ps[k].(parent := init)][j] == ps1[j]
        {
        }
      }
    } else {
      assert ps == ps1 by {
        forall j | 0 <= j < |ps|
          ensures ps[j] == ps1[j]
        {
        }
      }
    }
  }

  /** The table after exit(status) of the process in slot cur at `ticks`:
      the waiters on its parent are woken, its children are handed to init,
      initproc's waiters are woken if one of those children is a zombie, and
      cur itself becomes a ZOMBIE with its exit status, its running interval
      closed with -ticks and its termination tick. */
  function Exited(before: seq<Proc>, cur: nat, status: int, init: Option<nat>,
                  ticks: int, policy: int, baseline: int): (r: seq<Proc>)
    requires cur < |before|
    ensures |r| == |before|
  {
    var woke := First(before, ZombieChild(cur)).Some?;
    var mid := WakeupAll(before, ChanOf(before[cur].parent), ticks, policy, baseline);
    var t := ExitScan(mid, |mid|, woke, cur, init, ticks, policy, baseline);
    t[cur := Zombified(t[cur], status, ticks)]
  }

  /** What exit does to every other slot: wakes it if it sleeps on cur's
      parent, or on initproc when cur leaves a zombie child, and hands it to
      init if it is a child of cur. Nothing else of it changes. */
  lemma ExitedOthers(before: seq<Proc>, cur: nat, status: int, init: Option<nat>,
                     ticks: int, policy: int, baseline: int, j: nat)
    requires cur < |before| && j < |before| && j != cur
    ensures var q := before[j];
            var r := Exited(before, cur, status, init, ticks, policy, baseline)[j];
            var wokeByParent := SleepsOn(q, ChanOf(before[cur].parent));
            var wokeByInit := First(before, ZombieChild(cur)).Some? && SleepsOn(q, ChanOf(init));
      && r.parent == (if q.parent == Some(cur) then init else q.parent)
      && (wokeByParent || wokeByInit ==> r == Awakened(q, ticks, WakeKey(q, policy, baseline)).(parent := r.parent))
      && (!wokeByParent && !wokeByInit ==> r == q.(parent := r.parent))
  {
  }

  /** What exit does to the exiting process itself, when it is RUNNING. */
  lemma ExitedSelf(before: seq<Proc>, cur: nat, status: int, init: Option<nat>,
                   ticks: int, policy: int, baseline: int)
    requires cur < |before| && before[cur].state == Running
    ensures var q := before[cur];
      Exited(before, cur, status, init, ticks, policy, baseline)[cur]
        == q.(parent := if q.parent == Some(cur) then init else q.parent,
              status := status, rutime := q.rutime - ticks, state := Zombie, ttime := ticks)
  {
  }

  /** After exit no process has the exiting one as its parent, unless init is
      the exiting process itself. */
  lemma {:induction false} ExitedLeavesNoOrphans(before: seq<Proc>, cur: nat, status: int, init: Option<nat>,
                                                 ticks: int, policy: int, baseline: int)
    requires cur < |before| && init != Some(cur)
    ensures forall j :: 0 <= j < |before| ==>
              Exited(before, cur, status, init, ticks, policy, baseline)[j].parent != Some(cur)
  {
    var r := Exited(before, cur, status, init, ticks, policy, baseline);
    forall j | 0 <= j < |before|
      ensures r[j].parent != Some(cur)
    {
      var mid := WakeupAll(before, ChanOf(before[cur].parent), ticks, policy, baseline);
      assert mid[j].parent == before[j].parent;
    }
  }

  /** Neither of exit's wakeups touches the running process itself. */
  lemma ExitScanKeepsRunning(before: seq<Proc>, cur: nat, init: Option<nat>, pchan: Chan,
                             ticks: int, policy: int, baseline: int, woke: bool)
    requires cur < |before| && before[cur].state == Running
    ensures var mid := WakeupAll(before, pchan, ticks, policy, baseline);
      ExitScan(mid, |mid|, woke, cur, init, ticks, policy, baseline)[cur].state == Running
  {
  }

  /** The ready queues rrq and pq are rrq0 and pq0 with the slots s appended
      to the FIFO under round-robin, and with the entries m added to the
      priority queue under the other two policies. */
  predicate Queued(policy: int, rrq0: seq<nat>, pq0: map<nat, int>, s: seq<nat>, m: map<nat, int>,
                   rrq: seq<nat>, pq: map<nat, int>)
  {
    && (policy == SP_RRS ==> rrq == rrq0 + s && pq == pq0)
    && (policy != SP_RRS ==> rrq == rrq0 && pq == pq0 + m)
  }

  /** Enqueueing nothing leaves both queues as they are. */
  lemma QueuedNone(policy: int, rrq: seq<nat>, pq: map<nat, int>)
    ensures Queued(policy, rrq, pq, [], map[], rrq, pq)
  {
    assert rrq + [] == rrq && pq + map[] == pq;
  }

  /** Putting one slot p with key a on the active queue. */
  lemma QueuedOne(policy: int, rrq0: seq<nat>, pq0: map<nat, int>, p: nat, a: int, rrq: seq<nat>, pq: map<nat, int>)
    requires policy == SP_RRS ==> rrq == rrq0 + [p] && pq == pq0
    requires policy != SP_RRS ==> pq == pq0[p := a] && rrq == rrq0
    ensures Queued(policy, rrq0, pq0, [p], map[p := a], rrq, pq)
  {
    assert pq0[p := a] == pq0 + map[p := a];
  }

  /** Two rounds of enqueueing add up to one. */
  lemma QueuedTwice(policy: int, rrq0: seq<nat>, pq0: map<nat, int>, s1: seq<nat>, m1: map<nat, int>,
                    rrq1: seq<nat>, pq1: map<nat, int>, s2: seq<nat>, m2: map<nat, int>,
                    rrq2: seq<nat>, pq2: map<nat, int>)
    requires Queued(policy, rrq0, pq0, s1, m1, rrq1, pq1)
    requires Queued(policy, rrq1, pq1, s2, m2, rrq2, pq2)
    ensures Queued(policy, rrq0, pq0, s1 + s2, m1 + m2, rrq2, pq2)
  {
    if policy != SP_RRS {
      assert pq2 == pq0 + (m1 + m2);
    }
  }

  /** Enqueueing s and m either in the first round or in the second adds
      them once. */
  lemma QueuedOnce(policy: int, rrq0: seq<nat>, pq0: map<nat, int>, s: seq<nat>, m: map<nat, int>, woke: bool,
                   rrq1: seq<nat>, pq1: map<nat, int>, rrq2: seq<nat>, pq2: map<nat, int>)
    requires Queued(policy, rrq0, pq0, if woke then s else [], if woke then m else map[], rrq1, pq1)
    requires Queued(policy, rrq1, pq1, if woke then [] else s, if woke then map[] else m, rrq2, pq2)
    ensures Queued(policy, rrq0, pq0, s, m, rrq2, pq2)
  {
    if woke {
      assert s + [] == s && m + map[] == m;
    } else {
      assert [] + s == s && map[] + m == m;
    }
  }

  /** wakeup1's list of woken slots depends only on which slots sleep on the
      channel. */
  lemma {:induction false} SleepersOnSame(ps: seq<Proc>, qs: seq<Proc>, chan: Chan, n: nat)
    requires n <= |ps| && n <= |qs|
    requires forall j :: 0 <= j < n ==> (SleepsOn(ps[j], chan) <==> SleepsOn(qs[j], chan))
    ensures SleepersOn(ps, chan, n) == SleepersOn(qs, chan, n)
  {
    if n > 0 {
      SleepersOnSame(ps, qs, chan, n - 1);
    }
  }

  /** wakeup1's queue entries depend only on which slots sleep on the channel
      and the keys those slots are woken with. */
  lemma {:induction false} WokenKeysSame(ps: seq<Proc>, qs: seq<Proc>, chan: Chan, n: nat,
                                         policy: int, b0: int, b1: int)
    requires n <= |ps| && n <= |qs|
    requires forall j :: 0 <= j < n ==> (SleepsOn(ps[j], chan) <==> SleepsOn(qs[j], chan))
    requires forall j :: 0 <= j < n && SleepsOn(ps[j], chan) ==> WakeKey(ps[j], policy, b0) == WakeKey(qs[j], policy, b1)
    ensures WokenKeys(ps, chan, n, policy, b0) == WokenKeys(qs, chan, n, policy, b1)
  {
    if n > 0 {
      WokenKeysSame(ps, qs, chan, n - 1, policy, b0, b1);
    }
  }

  /** With no slot below n sleeping on the channel, wakeup1 wakes nothing. */
  lemma {:induction false} NoSleepers(ps: seq<Proc>, chan: Chan, n: nat, policy: int, b: int)
    requires n <= |ps|
    requires forall j :: 0 <= j < n ==> !SleepsOn(ps[j], chan)
    ensures SleepersOn(ps, chan, n) == []
    ensures WokenKeys(ps, chan, n, policy, b) == map[]
  {
    if n > 0 {
      NoSleepers(ps, chan, n - 1, policy, b);
    }
  }

  /** What the wakeup1 on initproc finds during exit's scan: every sleeper on
      initproc from the table the scan started with, or nothing once it has
      already run. Handing children to init changes no sleeper or key. */
  lemma ExitScanSleepers(mid: seq<Proc>, k: nat, woke: bool, cur: nat, init: Option<nat>,
                         ticks: int, policy: int, b0: int, b1: int)
    requires policy == SP_PS ==> b1 == b0
    ensures var ps := ExitScan(mid, k, woke, cur, init, ticks, policy, b0);
      && SleepersOn(ps, ChanOf(init), |mid|) == (if woke then [] else SleepersOn(mid, ChanOf(init), |mid|))
      && WokenKeys(ps, ChanOf(init), |mid|, policy, b1) == (if woke then map[] else WokenKeys(mid, ChanOf(init), |mid|, policy, b0))
  {
    var ps := ExitScan(mid, k, woke, cur, init, ticks, policy, b0);
    if woke {
      NoSleepers(ps, ChanOf(init), |mid|, policy, b1);
    } else {
      SleepersOnSame(ps, mid, ChanOf(init), |mid|);
      WokenKeysSame(ps, mid, ChanOf(init), |mid|, policy, b1, b0);
    }
  }

  /** wakeup1 wakes no zombie, so the zombie children are those of the table
      before it. */
  lemma ZombieChildAfterWakeup(before: seq<Proc>, cur: nat, pchan: Chan, ticks: int, policy: int, b: int)
    ensures First(WakeupAll(before, pchan, ticks, policy, b), ZombieChild(cur)).Some?
              == First(before, ZombieChild(cur)).Some?
  {
    var mid := WakeupAll(before, pchan, ticks, policy, b);
    var fb := First(before, ZombieChild(cur));
    var fm := First(mid, ZombieChild(cur));
    if fb.Some? {
      assert Matches(ZombieChild(cur), mid[fb.value]);
    }
    if fm.Some? {
      assert Matches(ZombieChild(cur), before[fm.value]);
    }
  }

  /** The slots exit appends to the FIFO under round-robin: the sleepers on
      the parent, then, if a zombie child is passed on, the sleepers on
      initproc that the first wakeup left asleep, each in table order. */
  function ExitFifo(before: seq<Proc>, cur: nat, init: Option<nat>, ticks: int, policy: int, baseline: int): seq<nat>
    requires cur < |before|
  {
    var pchan := ChanOf(before[cur].parent);
    var mid := WakeupAll(before, pchan, ticks, policy, baseline);
    SleepersOn(before, pchan, |before|)
      + (if First(before, ZombieChild(cur)).Some? then SleepersOn(mid, ChanOf(init), |mid|) else [])
  }

  /** The entries exit puts into the priority queue, under the same rule. */
  function ExitKeys(before: seq<Proc>, cur: nat, init: Option<nat>, ticks: int, policy: int, baseline: int): map<nat, int>
    requires cur < |before|
  {
    var pchan := ChanOf(before[cur].parent);
    var mid := WakeupAll(before, pchan, ticks, policy, baseline);
    WokenKeys(before, pchan, |before|, policy, baseline)
      + (if First(before, ZombieChild(cur)).Some? then WokenKeys(mid, ChanOf(init), |mid|, policy, baseline) else map[])
  }

  /** The zombie children exit's scan meets are those of the table before
      the first wakeup1, and the baseline the scan used matters under the
      priority policy only. */
  lemma {:induction false} ExitScanAfterWakeup(before: seq<Proc>, cur: nat, init: Option<nat>, pchan: Chan,
                                               ticks: int, policy: int, b0: int, b1: int)
    requires policy == SP_PS ==> b1 == b0
    ensures var mid := WakeupAll(before, pchan, ticks, policy, b0);
      ExitScan(mid, |mid|, First(mid, ZombieChild(cur)).Some?, cur, init, ticks, policy, b1)
        == ExitScan(mid, |mid|, First(before, ZombieChild(cur)).Some?, cur, init, ticks, policy, b0)
  {
    var mid := WakeupAll(before, pchan, ticks, policy, b0);
    var fb := First(before, ZombieChild(cur));
    var fm := First(mid, ZombieChild(cur));
    if fb.Some? {
      assert Matches(ZombieChild(cur), mid[fb.value]);
    }
    if fm.Some? {
      assert Matches(ZombieChild(cur), before[fm.value]);
    }
    var x := ExitScan(mid, |mid|, fm.Some?, cur, init, ticks, policy, b1);
    var y := ExitScan(mid, |mid|, fb.Some?, cur, init, ticks, policy, b0);
    forall j | 0 <= j < |mid|
      ensures x[j] == y[j]
    {
    }
  }

  /** The wakeup on the parent and then the scan's wakeup on initproc
      together enqueue what ExitFifo and ExitKeys say. */
  lemma ExitQueued(before: seq<Proc>, cur: nat, init: Option<nat>, ticks: int, policy: int, b0: int, b1: int,
                   rrq0: seq<nat>, pq0: map<nat, int>, rrq1: seq<nat>, pq1: map<nat, int>,
                   rrq2: seq<nat>, pq2: map<nat, int>)
    requires cur < |before| && (policy == SP_PS ==> b1 == b0)
    requires var pchan := ChanOf(before[cur].parent);
      Queued(policy, rrq0, pq0, SleepersOn(before, pchan, |before|), WokenKeys(before, pchan, |before|, policy, b0),
             rrq1, pq1)
    requires var mid := WakeupAll(before, ChanOf(before[cur].parent), ticks, policy, b0);
             var woke := First(mid, ZombieChild(cur)).Some?;
      Queued(policy, rrq1, pq1, if woke then SleepersOn(mid, ChanOf(init), |mid|) else [],
             if woke then WokenKeys(mid, ChanOf(init), |mid|, policy, b1) else map[], rrq2, pq2)
    ensures Queued(policy, rrq0, pq0, ExitFifo(before, cur, init, ticks, policy, b0),
                   ExitKeys(before, cur, init, ticks, policy, b0), rrq2, pq2)
  {
    var pchan := ChanOf(before[cur].parent);
    var mid := WakeupAll(before, pchan, ticks, policy, b0);
    ZombieChildAfterWakeup(before, cur, pchan, ticks, policy, b0);
    WokenKeysSame(mid, mid, ChanOf(init), |mid|, policy, b1, b0);
    var woke := First(mid, ZombieChild(cur)).Some?;
    QueuedTwice(policy, rrq0, pq0, SleepersOn(before, pchan, |before|), WokenKeys(before, pchan, |before|, policy, b0),
                rrq1, pq1, if woke then SleepersOn(mid, ChanOf(init), |mid|) else [],
                if woke then WokenKeys(mid, ChanOf(init), |mid|, policy, b0) else map[], rrq2, pq2);
  }

  /** The accumulators of the running slots of table ps. */
  function AccsOf(ps: seq<Proc>, running: set<nat>): map<nat, int>
  {
    map i | i in running && i < |ps| :: ps[i].accumulator
  }

  /** The record exit leaves behind for the exiting process: its exit
      status, its running interval closed with -ticks, ZOMBIE, and its
      termination tick. */
  function Zombified(q: Proc, status: int, ticks: int): Proc
  {
    q.(status := status, rutime := q.rutime - ticks, state := Zombie, ttime := ticks)
  }

  /** exit's three record updates produce that record. */
  lemma ZombieRecord(q: Proc, status: int, ticks: int)
    ensures WithPerfDelta(q.(status := status), RUTIME, -ticks).(state := Zombie, ttime := ticks)
              == Zombified(q, status, ticks)
  {
  }

  /** The record yield leaves behind. */
  lemma YieldRecord(q: Proc, ticks: int)
    ensures WithPerfDelta(WithPerfDelta(q, RUTIME, ticks).(state := Runnable), RETIME, -ticks) == Yielded(q, ticks)
  {
  }

  /** The record yield leaves behind: the running interval closes with
      +ticks, and a ready interval opens. */
  function Yielded(q: Proc, ticks: int): Proc
  {
    q.(state := Runnable, rutime := q.rutime + ticks, retime := q.retime - ticks)
  }

  /** The record sleep leaves behind: the channel, the running interval
      closed with -ticks, SLEEPING, and a sleeping interval opened. */
  function Slept(q: Proc, chan: Chan, ticks: int): Proc
  {
    q.(chan := chan, state := Sleeping, rutime := q.rutime - ticks, stime := q.stime - ticks)
  }

  /** How a run from dispatch at t0 to the step at t1 shows in rutime: a run
      that ends in yield adds its length t1 - t0, while one that ends in
      sleep or exit, whose intervals close with -ticks, subtracts t0 + t1. */
  lemma RunIntervalAccounting(q: Proc, t0: int, t1: int, stamp: int, chan: Chan, status: int)
    ensures Yielded(Dispatched(q, t0, stamp), t1).rutime == q.rutime + (t1 - t0)
    ensures Slept(Dispatched(q, t0, stamp), chan, t1).rutime == q.rutime - (t0 + t1)
    ensures Zombified(Dispatched(q, t0, stamp), status, t1).rutime == q.rutime - (t0 + t1)
    ensures Yielded(Dispatched(q, t0, stamp), t1).retime == q.retime + t0 - t1
  {
  }

  /** Marking a sleeping process killed and then waking it is waking it and
      then marking it. */
  lemma KilledThenAwakened(q: Proc, ticks: int)
    ensures Awakened(q.(killed := true), ticks, q.accumulator) == Awakened(q, ticks, q.accumulator).(killed := true)
  {
  }

  /** How wakeup1's scan grows its woken list and its queue entries by one
      slot. */
  lemma ScanStep(ps: seq<Proc>, chan: Chan, i: nat, policy: int, baseline: int)
    requires i < |ps|
    ensures SleepersOn(ps, chan, i + 1) == SleepersOn(ps, chan, i) + (if SleepsOn(ps[i], chan) then [i] else [])
    ensures WokenKeys(ps, chan, i + 1, policy, baseline) ==
              if SleepsOn(ps[i], chan) then WokenKeys(ps, chan, i, policy, baseline)[i := WakeKey(ps[i], policy, baseline)]
              else WokenKeys(ps, chan, i, policy, baseline)
  {
  }

  /** Adding one entry after a union is adding it to the right operand. */
  lemma PutAfterUnion(a: map<nat, int>, w: map<nat, int>, i: nat, k: int)
    ensures a + w[i := k] == (a + w)[i := k]
  {
  }

  /** The table after set_all_accumulators(value) has done the slots below k. */
  function AccumulatorsSet(ps: seq<Proc>, k: nat, value: int): (r: seq<Proc>)
    ensures |r| == |ps|
  {
    seq(|ps|, j requires 0 <= j < |ps| => if j < k then ps[j].(accumulator := value) else ps[j])
  }

  /** The table after set_filtered_priorities(filter, value) has done the
      slots below k. */
  function PrioritiesFiltered(ps: seq<Proc>, k: nat, filter: int, value: int): (r: seq<Proc>)
    ensures |r| == |ps|
  {
    seq(|ps|, j requires 0 <= j < |ps| =>
      if j < k && ps[j].priority == filter then ps[j].(priority := value) else ps[j])
  }

  /** Whether slot p holds a minimal key of the priority queue m. */
  predicate MinKey(m: map<nat, int>, p: nat)
  {
    p in m && forall k :: k in m ==> m[p] <= m[k]
  }

  /** The priority-queue entries the FIFO's slots get when the FIFO is moved
      into the priority queue: each slot keyed by its current accumulator. */
  function FifoKeys(ps: seq<Proc>, fifo: seq<nat>): (m: map<nat, int>)
    requires forall k :: 0 <= k < |fifo| ==> fifo[k] < |ps|
    ensures forall k :: k in m <==> k in fifo
  {
    map k | k in fifo :: ps[k].accumulator
  }

  /** Moving one more FIFO slot into the priority queue adds its entry. */
  lemma FifoKeysStep(ps: seq<Proc>, fifo: seq<nat>, n: nat)
    requires n < |fifo| && forall k :: 0 <= k < |fifo| ==> fifo[k] < |ps|
    ensures FifoKeys(ps, fifo[..n + 1]) == FifoKeys(ps, fifo[..n])[fifo[n] := ps[fifo[n]].accumulator]
  {
    assert fifo[..n + 1] == fifo[..n] + [fifo[n]];
  }

  /** A record as swtch_to_proc leaves it at the context switch: its ready
      interval closes, it is RUNNING, its running interval opens and its last
      dispatch stamp is `stamp`. */
  function Dispatched(q: Proc, ticks: int, stamp: int): Proc
  {
    q.(retime := q.retime + ticks, state := Running, rutime := q.rutime - ticks, lastTq := stamp)
  }

  /** swtch_to_proc's record updates produce that record. */
  lemma DispatchRecord(q: Proc, ticks: int, stamp: int)
    ensures WithPerfDelta(WithPerfDelta(q, RETIME, ticks).(state := Running), RUTIME, -ticks).(lastTq := stamp)
              == Dispatched(q, ticks, stamp)
  {
  }

  /** The state a dispatched process leaves itself in with each step. */
  function StateAfter(step: Step): ProcState
  {
    match step
    case YieldStep(_) => Runnable
    case SleepStep(_, _) => Sleeping
    case ExitStep(_, _) => Zombie
  }

  /** The table after the running process p takes its step, when that step
      is not initproc's exit: yield and sleep change p's record only, exit
      is Exited. */
  function AfterStep(ps: seq<Proc>, p: nat, step: Step, init: Option<nat>, policy: int, baseline: int): (r: seq<Proc>)
    requires p < |ps|
    ensures |r| == |ps|
  {
    match step
    case YieldStep(t) => ps[p := Yielded(ps[p], t)]
    case SleepStep(c, t) => ps[p := Slept(ps[p], c, t)]
    case ExitStep(s, t) => Exited(ps, p, s, init, t, policy, baseline)
  }

  /** The slots p's step appends to the round-robin FIFO: p itself after a
      yield, none after a sleep, exit's wakeups after an exit. */
  function FifoAfterStep(ps: seq<Proc>, p: nat, step: Step, init: Option<nat>, policy: int, baseline: int): seq<nat>
    requires p < |ps|
  {
    match step
    case YieldStep(_) => [p]
    case SleepStep(_, _) => []
    case ExitStep(_, t) => ExitFifo(ps, p, init, t, policy, baseline)
  }

  /** The entries p's step adds to the priority queue: p keyed by its
      accumulator after a yield, none after a sleep, exit's wakeups after an
      exit. */
  function KeysAfterStep(ps: seq<Proc>, p: nat, step: Step, init: Option<nat>, policy: int, baseline: int): map<nat, int>
    requires p < |ps|
  {
    match step
    case YieldStep(_) => map[p := ps[p].accumulator]
    case SleepStep(_, _) => map[]
    case ExitStep(_, t) => ExitKeys(ps, p, init, t, policy, baseline)
  }

  /** The table after the priority policies' charge: p's accumulator grows by
      its priority. */
  function Charge(ps: seq<Proc>, p: nat): (r: seq<Proc>)
    requires p < |ps|
    ensures |r| == |ps|
  {
    ps[p := ps[p].(accumulator := ps[p].accumulator + ps[p].priority)]
  }

  /** A record after update_pref_field(delta, field, _). */
  function WithPerfDelta(p: Proc, field: int, delta: int): Proc
  {
    if field == STIME then p.(stime := p.stime + delta)
    else if field == RETIME then p.(retime := p.retime + delta)
    else if field == RUTIME then p.(rutime := p.rutime + delta)
    else p
  }

  /** Whether policy(target) issued under policy `current` takes the branch
      that rewrites priority 0 to 1: every target but 1, except 3 issued under 1. */
  predicate RemapsPriorities(target: int, current: int)
  {
    target == SP_PS || (target == SP_EPS && current != SP_RRS)
  }

  class ProcTable {
    /** ptable.proc: one record per slot. */
    var procs: array<Proc>
    var nextPid: int
    /** initproc, as a slot index (None before userinit). */
    var initProc: Option<nat>
    /** current_sched_strat */
    var policy: int
    /** tq_timestamp: the count of dispatch decisions so far, plus one. */
    var tqTimestamp: int
    /** rrq: the round-robin FIFO of slots. */
    var rrq: seq<nat>
    /** pq: the priority queue, each queued slot with the accumulator it had
        when it was put. */
    var pq: map<nat, int>
    /** rpholder: the slots currently running on some CPU. */
    var running: set<nat>

    /** The whole-table invariant with two transient exceptions: `picked` is a
        RUNNABLE slot that is in neither ready queue (just dequeued, or made
        RUNNABLE and not yet enqueued) and `leaving` is a slot still in the
        running holder whose state is no longer RUNNING (its scheduler has not
        yet taken it out). -1 stands for "no such slot". */
    ghost predicate Inv(picked: int, leaving: int)
      reads this, procs
    {
      && Counters()
      && QueuesOk(picked)
      && SlotsOk(picked, leaving)
      && PidsDistinct()
    }

    /** The table size, a known policy, and the counters' ranges. */
    ghost predicate Counters()
      reads this
    {
      && procs.Length == NPROC
      && SP_RRS <= policy <= SP_EPS
      && 1 <= nextPid
      && 1 <= tqTimestamp
      && (initProc.Some? ==> initProc.value < NPROC)
    }

    /** Only the active policy's ready queue holds slots, the FIFO holds each
        slot once, and every slot in a structure is a table slot. */
    ghost predicate QueuesOk(picked: int)
      reads this
    {
      && (policy == SP_RRS ==> pq == map[])
      && (policy != SP_RRS ==> rrq == [])
      && (forall a, b :: 0 <= a < b < |rrq| ==> rrq[a] != rrq[b])
      && (forall k :: 0 <= k < |rrq| ==> rrq[k] < NPROC && rrq[k] != picked)
      && (forall i :: i in pq ==> i < NPROC && i != picked)
      && (forall i :: i in running ==> i < NPROC)
    }

    ghost predicate SlotsOk(picked: int, leaving: int)
      reads this, procs
      requires procs.Length == NPROC
    {
      forall i :: 0 <= i < NPROC ==> SlotOk(i, picked, leaving)
    }

    /** No two used slots share a pid. */
    ghost predicate PidsDistinct()
      reads this, procs
    {
      forall i, j :: 0 <= i < j < procs.Length && procs[i].state != Unused && procs[j].state != Unused ==>
        procs[i].pid != procs[j].pid
    }

    /** Per slot: RUNNABLE exactly when resident in the active ready queue,
        RUNNING exactly when in the running holder, the last dispatch stamp in
        the past, a priority in 0..10 that is never 0 under the priority
        policy, and a used slot's pid already handed out. */
    ghost predicate SlotOk(i: nat, picked: int, leaving: int)
      reads this, procs
      requires i < procs.Length
    {
      && (procs[i].state == Runnable <==> (i in rrq || i in pq || i == picked))
      && (i in running <==> (procs[i].state == Running || i == leaving))
      && procs[i].lastTq < tqTimestamp
      && 0 <= procs[i].priority <= 10
      && (policy == SP_PS ==> procs[i].priority != 0)
      && (procs[i].state != Unused ==> 1 <= procs[i].pid < nextPid)
    }

    ghost predicate Valid()
      reads this, procs
    {
      Inv(-1, -1)
    }

    /** The table at boot: every slot zeroed, round-robin active, pids and
        dispatch stamps starting at 1. */
    constructor ()
      ensures Valid() && fresh(procs)
      ensures forall i :: 0 <= i < procs.Length ==> procs[i] == EMPTY_PROC
      ensures policy == SP_RRS && nextPid == 1 && tqTimestamp == 1 && initProc == None
      ensures rrq == [] && pq == map[] && running == {}
    {
      procs := new Proc[NPROC](_ => EMPTY_PROC);
      nextPid := 1;
      initProc := None;
      policy := SP_RRS;
      tqTimestamp := 1;
      rrq := [];
      pq := map[];
      running := {};
    }

    /** The running holder's view: each running slot with its accumulator. */
    function RunningAccs(): map<nat, int>
      reads this`running, this`procs, procs
    {
      AccsOf(procs[..], running)
    }

    /** get_min_acc: never above any queued key or running accumulator, 0 when
        both structures are empty. */
    function GetMinAcc(): (b: int)
      reads this, procs
      ensures forall k :: k in pq && k < procs.Length ==> b <= pq[k]
      ensures forall k :: k in running && k < procs.Length ==> b <= procs[k].accumulator
      ensures (forall k :: k < procs.Length ==> k !in pq && k !in running) ==> b == 0
    {
      var ra := RunningAccs();
      assert forall k :: k in running && k < procs.Length ==> k in ra && ra[k] == procs[k].accumulator;
      Baseline(pq, ra, procs.Length)
    }

    /** The table scan shared by allocproc, kill, detach and wait: the first
        slot that matches q, or None. */
    method FindFirst(q: Query) returns (r: Option<nat>)
      ensures r == First(procs[..], q)
    {
      var i := 0;
      while i < procs.Length
        invariant 0 <= i <= procs.Length
        invariant forall j :: 0 <= j < i ==> !Matches(q, procs[j])
      {
        if Matches(q, procs[i]) {
          return Some(i);
        }
        i := i + 1;
      }
      return None;
    }

    /** update_pref_field: adds delta to the sleeping, ready or running time
        counter; any other field identifier is a panic (ok is false) and
        changes nothing. */
    method UpdatePerfField(delta: int, field: int, p: nat) returns (ok: bool)
      requires p < procs.Length
      modifies procs
      ensures ok <==> field in {STIME, RETIME, RUTIME}
      ensures procs[p] == WithPerfDelta(old(procs[p]), field, delta)
      ensures forall i :: 0 <= i < procs.Length && i != p ==> procs[i] == old(procs[i])
      ensures procs[..] == old(procs[..])[p := WithPerfDelta(old(procs[p]), field, delta)]
    {
      if field == STIME || field == RETIME || field == RUTIME {
        procs[p] := WithPerfDelta(procs[p], field, delta);
        return true;
      }
      return false;
    }

    /** enqueue_by_state: puts a RUNNABLE slot into the ready queue of the
        active policy, the priority queue keyed by its current accumulator.
        `leaving` is the ghost exception of Inv carried through unchanged. */
    method EnqueueByState(p: nat, ghost leaving: int)
      requires Inv(p, leaving) && p < procs.Length
      modifies this`rrq, this`pq
      ensures Inv(-1, leaving)
      ensures policy == SP_RRS ==> rrq == old(rrq) + [p] && pq == old(pq)
      ensures policy != SP_RRS ==> pq == old(pq)[p := procs[p].accumulator] && rrq == old(rrq)
    {
      if policy == SP_RRS {
        rrq := rrq + [p];
      } else {
        pq := pq[p := procs[p].accumulator];
      }
      forall i | 0 <= i < NPROC
        ensures SlotOk(i, -1, leaving)
      {
        assert old(SlotOk(i, p, leaving));
        assert i in rrq || i in pq <==> i in old(rrq) || i in old(pq) || i == p;
      }
    }

    /** The return into the per-CPU scheduler (sched, then swtch_to_proc after
        its swtch): the scheduler takes the process that gave up the CPU out of
        the running holder. */
    method Sched(p: nat)
      requires Inv(-1, p) && p < procs.Length && procs[p].state != Running
      modifies this`running
      ensures Valid()
      ensures running == old(running) - {p}
    {
      running := running - {p};
      forall i | 0 <= i < NPROC
        ensures SlotOk(i, -1, -1)
      {
        assert old(SlotOk(i, -1, p));
      }
    }

    /** yield: the running process closes its running interval, becomes
        RUNNABLE, opens a ready interval and is enqueued; then control returns
        to its scheduler. */
    method Yield(p: nat, ticks: nat)
      requires Valid() && p < procs.Length && procs[p].state == Running
      modifies procs, this`rrq, this`pq, this`running
      ensures Valid()
      ensures procs[p] == Yielded(old(procs[p]), ticks)
      ensures forall i :: 0 <= i < procs.Length && i != p ==> procs[i] == old(procs[i])
      ensures running == old(running) - {p}
      ensures policy == SP_RRS ==> rrq == old(rrq) + [p] && pq == old(pq)
      ensures policy != SP_RRS ==> pq == old(pq)[p := procs[p].accumulator] && rrq == old(rrq)
      ensures procs[..] == old(procs[..])[p := Yielded(old(procs[p]), ticks)]
    {
      assert p !in rrq && p !in pq by { assert SlotOk(p, -1, -1); }
      var ok := UpdatePerfField(ticks, RUTIME, p);
      procs[p] := procs[p].(state := Runnable);
      ok := UpdatePerfField(-(ticks as int), RETIME, p);
      YieldRecord(old(procs[p]), ticks);
      forall i | 0 <= i < NPROC
        ensures SlotOk(i, p, p)
      {
        assert old(SlotOk(i, -1, -1));
      }
      EnqueueByState(p, p);
      Sched(p);
    }

    /** sleep: the running process records its channel, closes its running
        interval with -ticks, becomes SLEEPING and opens a sleeping interval;
        then control returns to its scheduler. */
    method Sleep(p: nat, chan: Chan, ticks: nat)
      requires Valid() && p < procs.Length && procs[p].state == Running
      modifies procs, this`running
      ensures Valid()
      ensures procs[p] == Slept(old(procs[p]), chan, ticks)
      ensures forall i :: 0 <= i < procs.Length && i != p ==> procs[i] == old(procs[i])
      ensures running == old(running) - {p}
      ensures procs[..] == old(procs[..])[p := Slept(old(procs[p]), chan, ticks)]
    {
      procs[p] := procs[p].(chan := chan);
      var ok := UpdatePerfField(-(ticks as int), RUTIME, p);
      procs[p] := procs[p].(state := Sleeping);
      ok := UpdatePerfField(-(ticks as int), STIME, p);
      forall i | 0 <= i < NPROC
        ensures SlotOk(i, -1, p)
      {
        assert old(SlotOk(i, -1, -1));
      }
      Sched(p);
    }

    /** allocproc: the first UNUSED slot becomes EMBRYO with pid nextpid, and
        nextpid grows by one. With no UNUSED slot nothing changes. When the
        kernel stack cannot be allocated (kstackOk false) the slot goes back to
        UNUSED, keeping the pid it was given. */
    method AllocProc(kstackOk: bool) returns (slot: Option<nat>)
      requires Valid()
      modifies procs, this`nextPid
      ensures Valid()
      ensures var f := First(old(procs[..]), UnusedSlot);
        && (f.None? ==> slot == None && nextPid == old(nextPid) && procs[..] == old(procs[..]))
        && (f.Some? ==>
              && slot == (if kstackOk then f else None)
              && nextPid == old(nextPid) + 1
              && procs[f.value] == old(procs[f.value]).(state := if kstackOk then Embryo else Unused, pid := old(nextPid))
              && forall i :: 0 <= i < procs.Length && i != f.value ==> procs[i] == old(procs[i]))
    {
      var f := FindFirst(UnusedSlot);
      if f.None? {
        return None;
      }
      var p := f.value;
      procs[p] := procs[p].(state := Embryo, pid := nextPid);
      nextPid := nextPid + 1;
      if !kstackOk {
        procs[p] := procs[p].(state := Unused);
        slot := None;
      } else {
        slot := Some(p);
      }
      forall i | 0 <= i < NPROC
        ensures SlotOk(i, -1, -1)
        ensures i != p && procs[i].state != Unused ==> procs[i].pid < procs[p].pid
      {
        assert old(SlotOk(i, -1, -1));
      }
    }

    /** Under the priority policy only, a process made RUNNABLE gets the
        current fairness baseline as its accumulator. The baseline does not
        move, since p is not running. */
    method SetBaselineIfPriority(p: nat, ghost picked: int)
      requires Inv(picked, -1) && p < procs.Length && p !in running
      modifies procs
      ensures Inv(picked, -1)
      ensures procs[p] == old(procs[p]).(accumulator := if policy == SP_PS then old(GetMinAcc()) else old(procs[p].accumulator))
      ensures forall i :: 0 <= i < procs.Length && i != p ==> procs[i] == old(procs[i])
      ensures RunningAccs() == old(RunningAccs())
    {
      if policy == SP_PS {
        var b := GetMinAcc();
        procs[p] := procs[p].(accumulator := b);
        assert RunningAccs() == old(RunningAccs()) by {
          assert forall i :: i in running && i < procs.Length ==> procs[i] == old(procs[i]);
        }
        assert SlotsOk(picked, -1) by {
          forall i | 0 <= i < NPROC
            ensures SlotOk(i, picked, -1)
          {
            assert old(SlotOk(i, picked, -1));
          }
        }
      }
    }

    /** The new process gets priority NP_PRIORITY. */
    method SetNewPriority(p: nat)
      requires Valid() && p < procs.Length
      modifies procs
      ensures Valid()
      ensures procs[p] == old(procs[p]).(priority := NP_PRIORITY)
      ensures forall i :: 0 <= i < procs.Length && i != p ==> procs[i] == old(procs[i])
    {
      procs[p] := procs[p].(priority := NP_PRIORITY);
      forall i | 0 <= i < NPROC
        ensures SlotOk(i, -1, -1)
      {
        assert old(SlotOk(i, -1, -1));
      }
    }

    /** An EMBRYO becomes RUNNABLE; a forked process (creation true) also gets
        its creation tick and opens a ready interval. It is not yet in a ready
        queue. */
    method BecomeRunnable(p: nat, creation: bool, ticks: nat)
      requires Valid() && p < procs.Length && procs[p].state == Embryo
      modifies procs
      ensures Inv(p, -1)
      ensures procs[p] == old(procs[p]).(
                state := Runnable,
                ctime := if creation then ticks else old(procs[p].ctime),
                retime := if creation then old(procs[p].retime) - ticks else old(procs[p].retime))
      ensures forall i :: 0 <= i < procs.Length && i != p ==> procs[i] == old(procs[i])
    {
      assert p !in rrq && p !in pq by { assert SlotOk(p, -1, -1); }
      if creation {
        procs[p] := procs[p].(ctime := ticks);
      }
      procs[p] := procs[p].(state := Runnable);
      if creation {
        var ok := UpdatePerfField(-(ticks as int), RETIME, p);
      }
      forall i | 0 <= i < NPROC
        ensures SlotOk(i, p, -1)
      {
        assert old(SlotOk(i, -1, -1));
      }
    }

    /** The part of fork after the address space is copied, and userinit's
        tail (creation false): the new process becomes RUNNABLE, is enqueued
        with the accumulator it has, gets priority NP_PRIORITY and, under the
        priority policy only, the fairness baseline as accumulator. */
    method MakeRunnable(p: nat, creation: bool, ticks: nat)
      requires Valid() && p < procs.Length && procs[p].state == Embryo
      modifies procs, this`rrq, this`pq
      ensures Valid()
      ensures procs[p] == old(procs[p]).(
                state := Runnable,
                ctime := if creation then ticks else old(procs[p].ctime),
                retime := if creation then old(procs[p].retime) - ticks else old(procs[p].retime),
                priority := NP_PRIORITY,
                accumulator := procs[p].accumulator)
      ensures policy == SP_PS ==> procs[p].accumulator == GetMinAcc()
      ensures policy != SP_PS ==> procs[p].accumulator == old(procs[p].accumulator)
      ensures forall i :: 0 <= i < procs.Length && i != p ==> procs[i] == old(procs[i])
      ensures policy == SP_RRS ==> rrq == old(rrq) + [p] && pq == old(pq)
      ensures policy != SP_RRS ==> pq == old(pq)[p := old(procs[p].accumulator)] && rrq == old(rrq)
    {
      assert p !in running by { assert SlotOk(p, -1, -1); }
      BecomeRunnable(p, creation, ticks);
      EnqueueByState(p, -1);
      SetNewPriority(p);
      label Queued:
      assert p !in running by { assert SlotOk(p, -1, -1); }
      SetBaselineIfPriority(p, -1);
      assert GetMinAcc() == old@Queued(GetMinAcc()) by {
        assert pq == old@Queued(pq);
      }
    }

    /** fork, as seen by the process table: allocproc, then either a failed
        copy of the address space (vmOk false), which frees the slot again,
        or the new child of `cur` made RUNNABLE. Returns the child's pid, or
        -1 when no slot, no kernel stack or no address space was available. */
    method Fork(cur: nat, kstackOk: bool, vmOk: bool, ticks: nat) returns (pid: int)
      requires Valid() && cur < procs.Length
      modifies procs, this`nextPid, this`rrq, this`pq
      ensures Valid()
      ensures var f := First(old(procs[..]), UnusedSlot);
        && (f.None? ==> pid == -1 && nextPid == old(nextPid) && procs[..] == old(procs[..]) && rrq == old(rrq) && pq == old(pq))
        && (f.Some? ==> nextPid == old(nextPid) + 1)
        && (f.Some? && !(kstackOk && vmOk) ==>
              && pid == -1 && rrq == old(rrq) && pq == old(pq)
              && procs[f.value] == old(procs[f.value]).(pid := old(nextPid)))
        && (f.Some? && kstackOk && vmOk ==>
              && pid == old(nextPid)
              && procs[f.value] == old(procs[f.value]).(
                   state := Runnable, pid := old(nextPid), parent := Some(cur), ctime := ticks,
                   retime := old(procs[f.value].retime) - ticks, priority := NP_PRIORITY,
                   accumulator := procs[f.value].accumulator)
              && (policy == SP_PS ==> procs[f.value].accumulator == GetMinAcc())
              && (policy != SP_PS ==> procs[f.value].accumulator == old(procs[f.value].accumulator))
              && (policy == SP_RRS ==> rrq == old(rrq) + [f.value] && pq == old(pq))
              && (policy != SP_RRS ==> pq == old(pq)[f.value := old(procs[f.value].accumulator)] && rrq == old(rrq)))
        && (f.Some? ==> forall i :: 0 <= i < procs.Length && i != f.value ==> procs[i] == old(procs[i]))
    {
      var np := AllocProc(kstackOk);
      if np.None? {
        return -1;
      }
      var p := np.value;
      label Allocated:
      if !vmOk {
        FreeEmbryo(p);
        return -1;
      }
      procs[p] := procs[p].(parent := Some(cur));
      forall i | 0 <= i < NPROC
        ensures SlotOk(i, -1, -1)
      {
        assert old@Allocated(SlotOk(i, -1, -1));
      }
      pid := procs[p].pid;
      MakeRunnable(p, true, ticks);
    }

    /** The failure path of fork after allocproc: the EMBRYO goes back to
        UNUSED, keeping its pid. */
    method FreeEmbryo(p: nat)
      requires Valid() && p < procs.Length && procs[p].state == Embryo
      modifies procs
      ensures Valid()
      ensures procs[p] == old(procs[p]).(state := Unused)
      ensures forall i :: 0 <= i < procs.Length && i != p ==> procs[i] == old(procs[i])
    {
      procs[p] := procs[p].(state := Unused);
      forall i | 0 <= i < NPROC
        ensures SlotOk(i, -1, -1)
      {
        assert old(SlotOk(i, -1, -1));
      }
    }

    /** userinit, as seen by the process table: allocproc, record the slot as
        initproc and make it RUNNABLE (no creation tick, no ready interval).
        None when allocproc fails, where the source dereferences a null
        process and boot cannot go on. */
    method UserInit(kstackOk: bool) returns (slot: Option<nat>)
      requires Valid()
      modifies procs, this`nextPid, this`rrq, this`pq, this`initProc
      ensures Valid()
      ensures var f := First(old(procs[..]), UnusedSlot);
        && (slot.Some? <==> f.Some? && kstackOk)
        && (slot.Some? ==>
              && slot == f && initProc == slot
              && procs[f.value].state == Runnable && procs[f.value].pid == old(nextPid)
              && procs[f.value].priority == NP_PRIORITY
              && procs[f.value] == old(procs[f.value]).(
                   state := Runnable, pid := old(nextPid), priority := NP_PRIORITY,
                   accumulator := procs[f.value].accumulator)
              && (policy == SP_PS ==> procs[f.value].accumulator == GetMinAcc())
              && (policy != SP_PS ==> procs[f.value].accumulator == old(procs[f.value].accumulator))
              && (policy == SP_RRS ==> rrq == old(rrq) + [f.value] && pq == old(pq))
              && (policy != SP_RRS ==> pq == old(pq)[f.value := old(procs[f.value].accumulator)] && rrq == old(rrq))
              && nextPid == old(nextPid) + 1
              && forall i :: 0 <= i < procs.Length && i != f.value ==> procs[i] == old(procs[i]))
        && (slot.None? ==> initProc == old(initProc) && rrq == old(rrq) && pq == old(pq))
        && (f.None? ==> nextPid == old(nextPid) && procs[..] == old(procs[..]))
        && (f.Some? && !kstackOk ==>
              && nextPid == old(nextPid) + 1
              && procs[f.value] == old(procs[f.value]).(pid := old(nextPid))
              && forall i :: 0 <= i < procs.Length && i != f.value ==> procs[i] == old(procs[i]))
    {
      slot := AllocProc(kstackOk);
      if slot.None? {
        return;
      }
      label Allocated:
      initProc := slot;
      forall i | 0 <= i < NPROC
        ensures SlotOk(i, -1, -1)
      {
        assert old@Allocated(SlotOk(i, -1, -1));
      }
      MakeRunnable(slot.value, false, 0);
    }

    /** The shared body of wakeup1 and kill for one SLEEPING process: its
        sleep interval closes, it becomes RUNNABLE with accumulator `acc` and
        opens a ready interval. It is not yet in a ready queue. */
    method Awaken(p: nat, ticks: nat, acc: int)
      requires Valid() && p < procs.Length && procs[p].state == Sleeping
      modifies procs
      ensures Inv(p, -1) && p !in running
      ensures procs[p] == Awakened(old(procs[p]), ticks, acc)
      ensures forall i :: 0 <= i < procs.Length && i != p ==> procs[i] == old(procs[i])
      ensures RunningAccs() == old(RunningAccs())
    {
      assert p !in rrq && p !in pq && p !in running by { assert SlotOk(p, -1, -1); }
      var ok := UpdatePerfField(ticks, STIME, p);
      procs[p] := procs[p].(state := Runnable);
      ok := UpdatePerfField(-(ticks as int), RETIME, p);
      procs[p] := procs[p].(accumulator := acc);
      assert RunningAccs() == old(RunningAccs());
      forall i | 0 <= i < NPROC
        ensures SlotOk(i, p, -1)
      {
        assert old(SlotOk(i, -1, -1));
      }
    }

    /** One process woken by wakeup1 or kill: awakened, given accumulator
        `acc` and enqueued with it. */
    method WakeOne(p: nat, ticks: nat, acc: int)
      requires Valid() && p < procs.Length && procs[p].state == Sleeping
      modifies procs, this`rrq, this`pq
      ensures Valid()
      ensures procs[p] == Awakened(old(procs[p]), ticks, acc)
      ensures forall i :: 0 <= i < procs.Length && i != p ==> procs[i] == old(procs[i])
      ensures policy == SP_RRS ==> rrq == old(rrq) + [p] && pq == old(pq)
      ensures policy != SP_RRS ==> pq == old(pq)[p := acc] && rrq == old(rrq)
      ensures RunningAccs() == old(RunningAccs())
    {
      Awaken(p, ticks, acc);
      EnqueueByState(p, -1);
    }

    /** wakeup1: every process sleeping on chan, in table order, is awakened,
        given the baseline under the priority policy and enqueued. Under the
        priority policy every woken process gets the baseline of the moment
        the scan started, which the scan leaves unchanged. */
    method WakeUp1(chan: Chan, ticks: nat)
      requires Valid()
      modifies procs, this`rrq, this`pq
      ensures Valid()
      ensures procs[..] == WakeupAll(old(procs[..]), chan, ticks, policy, old(GetMinAcc()))
      ensures Queued(policy, old(rrq), old(pq), SleepersOn(old(procs[..]), chan, NPROC),
                     WokenKeys(old(procs[..]), chan, NPROC, policy, old(GetMinAcc())), rrq, pq)
      ensures policy == SP_PS ==> GetMinAcc() == old(GetMinAcc())
    {
      ghost var before := procs[..];
      ghost var b0 := GetMinAcc();
      WakeupStart(before, chan, ticks, policy, b0, rrq, pq);
      ScanSleepers(chan, ticks, before, b0, rrq, pq);
    }

    /** wakeup1's loop over the table. */
    method ScanSleepers(chan: Chan, ticks: nat, ghost before: seq<Proc>, ghost b0: int,
                        ghost rrq0: seq<nat>, ghost pq0: map<nat, int>)
      requires Valid() && ScannedUpTo(0, chan, ticks, before, b0, rrq0, pq0)
      modifies procs, this`rrq, this`pq
      ensures Valid() && ScannedUpTo(NPROC, chan, ticks, before, b0, rrq0, pq0)
    {
      var i := 0;
      while i < NPROC
        invariant 0 <= i <= NPROC
        invariant Scanning(i, chan, ticks, before, b0, rrq0, pq0)
      {
        WakeSlot(i, chan, ticks, before, b0, rrq0, pq0);
        i := i + 1;
      }
    }

    /** The state of wakeup1's scan once slots below i are done: those slots
        are as wakeup1 leaves them, the others as they were, and the queues
        hold exactly what was woken so far. */
    ghost predicate ScannedUpTo(i: nat, chan: Chan, ticks: nat, before: seq<Proc>, b0: int,
                                rrq0: seq<nat>, pq0: map<nat, int>)
      reads this, procs
    {
      && i <= NPROC == |before| == procs.Length
      && procs[..] == WakeupBelow(before, i, chan, ticks, policy, b0)
      && (policy == SP_PS ==> GetMinAcc() == b0)
      && (policy == SP_RRS ==> rrq == rrq0 + SleepersOn(before, chan, i) && pq == pq0)
      && (policy != SP_RRS ==> rrq == rrq0 && pq == pq0 + WokenKeys(before, chan, i, policy, b0))
    }

    ghost predicate Scanning(i: nat, chan: Chan, ticks: nat, before: seq<Proc>, b0: int,
                             rrq0: seq<nat>, pq0: map<nat, int>)
      reads this, procs
    {
      Valid() && ScannedUpTo(i, chan, ticks, before, b0, rrq0, pq0)
    }

    /** One step of wakeup1's scan: slot i is woken if it sleeps on chan. */
    method WakeSlot(i: nat, chan: Chan, ticks: nat, ghost before: seq<Proc>, ghost b0: int,
                    ghost rrq0: seq<nat>, ghost pq0: map<nat, int>)
      requires i < NPROC && Scanning(i, chan, ticks, before, b0, rrq0, pq0)
      modifies procs, this`rrq, this`pq
      ensures Scanning(i + 1, chan, ticks, before, b0, rrq0, pq0)
    {
      if procs[i].state == Sleeping && procs[i].chan == chan {
        WakeSleeper(i, chan, ticks, before, b0, rrq0, pq0);
      } else {
        ScanStep(before, chan, i, policy, b0);
        WakeupBelowStep(before, i, chan, ticks, policy, b0);
      }
    }

    /** The step of wakeup1's scan at a slot that sleeps on chan. */
    method WakeSleeper(i: nat, chan: Chan, ticks: nat, ghost before: seq<Proc>, ghost b0: int,
                       ghost rrq0: seq<nat>, ghost pq0: map<nat, int>)
      requires Valid() && i < NPROC && ScannedUpTo(i, chan, ticks, before, b0, rrq0, pq0)
      requires SleepsOn(procs[i], chan)
      modifies procs, this`rrq, this`pq
      ensures Valid() && ScannedUpTo(i + 1, chan, ticks, before, b0, rrq0, pq0)
    {
      ghost var w := WokenKeys(before, chan, i, policy, b0);
      ghost var k := WakeKey(before[i], policy, b0);
      ScanStep(before, chan, i, policy, b0);
      PutAfterUnion(pq0, w, i, k);
      WakeupBelowStep(before, i, chan, ticks, policy, b0);
      ghost var ra := RunningAccs();
      if policy == SP_PS {
        BaselineAfterPut(pq, ra, NPROC, i);
      }
      WakeOne(i, ticks, WakeKey(procs[i], policy, GetMinAcc()));
      assert procs[i] == AfterWakeup(before[i], chan, ticks, policy, b0);
      assert procs[..] == old(procs[..])[i := procs[i]];
    }

    /** kill: the first slot whose pid is `pid`, in whatever state, is marked
        killed and, if it sleeps, woken and enqueued with its own accumulator.
        0 when a slot matched, -1 otherwise. */
    method Kill(pid: int, ticks: nat) returns (r: int)
      requires Valid()
      modifies procs, this`rrq, this`pq
      ensures Valid()
      ensures var f := First(old(procs[..]), WithPid(pid));
        && (f.None? ==> r == -1 && procs[..] == old(procs[..]) && rrq == old(rrq) && pq == old(pq))
        && (f.Some? ==>
              var q := old(procs[f.value]);
              && r == 0
              && procs[f.value] == (if q.state == Sleeping then Awakened(q, ticks, q.accumulator) else q).(killed := true)
              && (forall i :: 0 <= i < procs.Length && i != f.value ==> procs[i] == old(procs[i]))
              && (q.state != Sleeping ==> rrq == old(rrq) && pq == old(pq))
              && (q.state == Sleeping && policy == SP_RRS ==> rrq == old(rrq) + [f.value] && pq == old(pq))
              && (q.state == Sleeping && policy != SP_RRS ==> pq == old(pq)[f.value := q.accumulator] && rrq == old(rrq)))
    {
      var f := FindFirst(WithPid(pid));
      if f.None? {
        return -1;
      }
      var p := f.value;
      MarkKilled(p);
      if procs[p].state == Sleeping {
        WakeOne(p, ticks, procs[p].accumulator);
        KilledThenAwakened(old(procs[p]), ticks);
      }
      return 0;
    }

    /** Sets the killed flag of slot k. */
    method MarkKilled(k: nat)
      requires Valid() && k < procs.Length
      modifies procs
      ensures Valid()
      ensures procs[k] == old(procs[k]).(killed := true)
      ensures forall i :: 0 <= i < procs.Length && i != k ==> procs[i] == old(procs[i])
    {
      procs[k] := procs[k].(killed := true);
      forall i | 0 <= i < NPROC
        ensures SlotOk(i, -1, -1)
      {
        assert old(SlotOk(i, -1, -1));
      }
    }

    /** detach: the first child of `cur` with pid `pid` is handed to
        initproc. 0 when such a child exists, -1 otherwise. Whether the child
        is still alive is not looked at. */
    method Detach(cur: nat, pid: int) returns (r: int)
      requires Valid()
      modifies procs
      ensures Valid()
      ensures var f := First(old(procs[..]), ChildWithPid(cur, pid));
        && (f.None? ==> r == -1 && procs[..] == old(procs[..]))
        && (f.Some? ==>
              && r == 0
              && procs[f.value] == old(procs[f.value]).(parent := initProc)
              && forall i :: 0 <= i < procs.Length && i != f.value ==> procs[i] == old(procs[i]))
    {
      var f := FindFirst(ChildWithPid(cur, pid));
      if f.None? {
        return -1;
      }
      SetParent(f.value, initProc);
      return 0;
    }

    /** Sets the parent of slot k; nothing the invariant or the baseline
        depends on changes. */
    method SetParent(k: nat, parent: Option<nat>)
      requires Valid() && k < procs.Length
      modifies procs
      ensures Valid()
      ensures procs[k] == old(procs[k]).(parent := parent)
      ensures forall i :: 0 <= i < procs.Length && i != k ==> procs[i] == old(procs[i])
      ensures procs[..] == old(procs[..])[k := old(procs[k]).(parent := parent)]
      ensures GetMinAcc() == old(GetMinAcc())
    {
      procs[k] := procs[k].(parent := parent);
      assert RunningAccs() == old(RunningAccs());
      forall i | 0 <= i < NPROC
        ensures SlotOk(i, -1, -1)
      {
        assert old(SlotOk(i, -1, -1));
      }
    }

    /** priority: the calling process takes the new priority when it lies in
        1..10, or when it is 0 and the extended priority policy is active;
        any other value is ignored. */
    method SetPriority(cur: nat, value: int)
      requires Valid() && cur < procs.Length
      modifies procs
      ensures Valid()
      ensures procs[cur] == if 0 < value <= 10 || (value == 0 && policy == SP_EPS)
                            then old(procs[cur]).(priority := value) else old(procs[cur])
      ensures forall i :: 0 <= i < procs.Length && i != cur ==> procs[i] == old(procs[i])
    {
      if (0 < value <= 10) || (value == 0 && policy == SP_EPS) {
        procs[cur] := procs[cur].(priority := value);
        forall i | 0 <= i < NPROC
          ensures SlotOk(i, -1, -1)
        {
          assert old(SlotOk(i, -1, -1));
        }
      }
    }

    /** The reaping part of wait: a ZOMBIE slot becomes UNUSED, with pid 0, no
        parent and the killed flag cleared. */
    method Reap(z: nat)
      requires Valid() && z < procs.Length && procs[z].state == Zombie
      modifies procs
      ensures Valid()
      ensures procs[z] == old(procs[z]).(state := Unused, pid := 0, parent := None, killed := false)
      ensures forall i :: 0 <= i < procs.Length && i != z ==> procs[i] == old(procs[i])
    {
      procs[z] := procs[z].(pid := 0, parent := None, killed := false, state := Unused);
      forall i | 0 <= i < NPROC
        ensures SlotOk(i, -1, -1)
      {
        assert old(SlotOk(i, -1, -1));
      }
    }

    /** One pass of wait_stat for the running process cur: the first ZOMBIE
        child is reaped and its pid, exit status and counters are returned;
        with no child at all, or when cur was killed, the answer is
        NoChildren; otherwise cur goes to sleep on its own slot. */
    method WaitStat(cur: nat, ticks: nat) returns (r: WaitOutcome, perf: Option<Perf>)
      requires Valid() && cur < procs.Length && procs[cur].state == Running
      modifies procs, this`running
      ensures Valid()
      ensures var z := First(old(procs[..]), ZombieChild(cur));
              var c := First(old(procs[..]), ChildOf(cur));
        && (z.Some? ==>
              && r == Reaped(old(procs[z.value].pid), old(procs[z.value].status))
              && perf == Some(PerfOf(old(procs[z.value])))
              && procs[z.value] == old(procs[z.value]).(state := Unused, pid := 0, parent := None, killed := false)
              && (forall i :: 0 <= i < procs.Length && i != z.value ==> procs[i] == old(procs[i]))
              && running == old(running))
        && (z.None? && (c.None? || old(procs[cur].killed)) ==>
              r == NoChildren && perf == None && procs[..] == old(procs[..]) && running == old(running))
        && (z.None? && c.Some? && !old(procs[cur].killed) ==>
              && r == Blocked && perf == None
              && procs[cur] == Slept(old(procs[cur]), ProcChan(cur), ticks)
              && (forall i :: 0 <= i < procs.Length && i != cur ==> procs[i] == old(procs[i]))
              && running == old(running) - {cur})
      ensures r.Reaped? ==> r.pid >= 1
    {
      var z := FindFirst(ZombieChild(cur));
      if z.Some? {
        var zp := z.value;
        assert SlotOk(zp, -1, -1);
        r := Reaped(procs[zp].pid, procs[zp].status);
        perf := Some(PerfOf(procs[zp]));
        Reap(zp);
        return;
      }
      var c := FindFirst(ChildOf(cur));
      perf := None;
      if c.None? || procs[cur].killed {
        return NoChildren, None;
      }
      Sleep(cur, ProcChan(cur), ticks);
      r := Blocked;
    }

    /** One pass of wait: wait_stat without the counters. */
    method Wait(cur: nat, ticks: nat) returns (r: WaitOutcome)
      requires Valid() && cur < procs.Length && procs[cur].state == Running
      modifies procs, this`running
      ensures Valid()
      ensures var z := First(old(procs[..]), ZombieChild(cur));
              var c := First(old(procs[..]), ChildOf(cur));
        && (z.Some? ==>
              && r == Reaped(old(procs[z.value].pid), old(procs[z.value].status))
              && procs[z.value] == old(procs[z.value]).(state := Unused, pid := 0, parent := None, killed := false)
              && (forall i :: 0 <= i < procs.Length && i != z.value ==> procs[i] == old(procs[i]))
              && running == old(running))
        && (z.None? && (c.None? || old(procs[cur].killed)) ==>
              r == NoChildren && procs[..] == old(procs[..]) && running == old(running))
        && (z.None? && c.Some? && !old(procs[cur].killed) ==>
              && r == Blocked
              && procs[cur] == Slept(old(procs[cur]), ProcChan(cur), ticks)
              && (forall i :: 0 <= i < procs.Length && i != cur ==> procs[i] == old(procs[i]))
              && running == old(running) - {cur})
      ensures r.Reaped? ==> r.pid >= 1
    {
      var perf;
      r, perf := WaitStat(cur, ticks);
    }

    /** exit: the running process cur, unless it is initproc (a panic, with
        nothing changed), wakes its parent's waiters, hands its children to
        initproc, waking initproc's waiters if one of them is a zombie,
        records its exit status, closes its running interval with -ticks,
        becomes a ZOMBIE with termination tick `ticks` and returns to its
        scheduler. */
    method Exit(cur: nat, status: int, ticks: nat) returns (halted: bool)
      requires Valid() && cur < procs.Length && procs[cur].state == Running
      modifies procs, this`rrq, this`pq, this`running
      ensures Valid()
      ensures halted <==> initProc == Some(cur)
      ensures halted ==> procs[..] == old(procs[..]) && rrq == old(rrq) && pq == old(pq) && running == old(running)
      ensures !halted ==>
        && procs[..] == Exited(old(procs[..]), cur, status, initProc, ticks, policy, old(GetMinAcc()))
        && running == old(running) - {cur}
      ensures !halted ==>
        Queued(policy, old(rrq), old(pq), ExitFifo(old(procs[..]), cur, initProc, ticks, policy, old(GetMinAcc())),
               ExitKeys(old(procs[..]), cur, initProc, ticks, policy, old(GetMinAcc())), rrq, pq)
    {
      if initProc == Some(cur) {
        return true;
      }
      ExitAsChild(cur, status, ticks);
      return false;
    }

    /** exit of any process but initproc. */
    method ExitAsChild(cur: nat, status: int, ticks: nat)
      requires Valid() && cur < procs.Length && procs[cur].state == Running
      modifies procs, this`rrq, this`pq, this`running
      ensures Valid()
      ensures procs[..] == Exited(old(procs[..]), cur, status, initProc, ticks, policy, old(GetMinAcc()))
      ensures running == old(running) - {cur}
      ensures Queued(policy, old(rrq), old(pq), ExitFifo(old(procs[..]), cur, initProc, ticks, policy, old(GetMinAcc())),
                     ExitKeys(old(procs[..]), cur, initProc, ticks, policy, old(GetMinAcc())), rrq, pq)
    {
      LeaveChildren(cur, ticks);
      ghost var scanned := procs[..];
      BecomeZombie(cur, status, ticks);
      assert procs[..] == scanned[cur := Zombified(scanned[cur], status, ticks)];
      Sched(cur);
    }

    /** The first two phases of exit: the waiters on cur's parent are woken,
        then cur's children go to initproc. */
    method LeaveChildren(cur: nat, ticks: nat)
      requires Valid() && cur < procs.Length && procs[cur].state == Running
      modifies procs, this`rrq, this`pq
      ensures Valid() && procs[cur].state == Running
      ensures procs[..] == ExitScan(WakeupAll(old(procs[..]), ChanOf(old(procs[cur].parent)), ticks, policy, old(GetMinAcc())),
                                    NPROC, First(old(procs[..]), ZombieChild(cur)).Some?,
                                    cur, initProc, ticks, policy, old(GetMinAcc()))
      ensures Queued(policy, old(rrq), old(pq), ExitFifo(old(procs[..]), cur, initProc, ticks, policy, old(GetMinAcc())),
                     ExitKeys(old(procs[..]), cur, initProc, ticks, policy, old(GetMinAcc())), rrq, pq)
    {
      ghost var before := procs[..];
      ghost var b0 := GetMinAcc();
      ghost var pchan := ChanOf(procs[cur].parent);
      WakeUp1(ChanOf(procs[cur].parent), ticks);
      ghost var b1 := GetMinAcc();
      ghost var rrq1, pq1 := rrq, pq;
      ReparentChildren(cur, ticks);
      ExitScanAfterWakeup(before, cur, initProc, pchan, ticks, policy, b0, b1);
      ExitScanKeepsRunning(before, cur, initProc, pchan, ticks, policy, b0, First(before, ZombieChild(cur)).Some?);
      ExitQueued(before, cur, initProc, ticks, policy, b0, b1, old(rrq), old(pq), rrq1, pq1, rrq, pq);
    }

    /** The scan of exit over the table: every child of cur goes to initproc,
        and initproc's waiters are woken if one of them is a zombie. */
    method ReparentChildren(cur: nat, ticks: nat)
      requires Valid()
      modifies procs, this`rrq, this`pq
      ensures Valid()
      ensures policy == SP_PS ==> GetMinAcc() == old(GetMinAcc())
      ensures procs[..] == ExitScan(old(procs[..]), NPROC, First(old(procs[..]), ZombieChild(cur)).Some?,
                                    cur, initProc, ticks, policy, old(GetMinAcc()))
      ensures var woke := First(old(procs[..]), ZombieChild(cur)).Some?;
        Queued(policy, old(rrq), old(pq),
               if woke then SleepersOn(old(procs[..]), ChanOf(initProc), NPROC) else [],
               if woke then WokenKeys(old(procs[..]), ChanOf(initProc), NPROC, policy, old(GetMinAcc())) else map[],
               rrq, pq)
    {
      ghost var mid := procs[..];
      ghost var b0 := GetMinAcc();
      ghost var woke := false;
      ExitScanStart(mid, cur, initProc, ticks, policy, b0);
      assert Queued(policy, rrq, pq, [], map[], rrq, pq) by {
        assert rrq == rrq + [] && pq == pq + map[];
      }
      woke := ScanChildren(cur, ticks, mid, b0, old(rrq), old(pq));
      ghost var f := First(mid, ZombieChild(cur));
      if f.Some? {
        assert Matches(ZombieChild(cur), mid[f.value]);
      }
      assert woke == f.Some?;
    }

    /** The loop of exit's scan over every slot. */
    method ScanChildren(cur: nat, ticks: nat, ghost mid: seq<Proc>, ghost b0: int,
                        ghost rrq0: seq<nat>, ghost pq0: map<nat, int>) returns (ghost woke: bool)
      requires Reparenting(0, false, cur, mid, ticks, b0, rrq0, pq0)
      modifies procs, this`rrq, this`pq
      ensures Reparenting(NPROC, woke, cur, mid, ticks, b0, rrq0, pq0)
    {
      woke := false;
      var k := 0;
      while k < NPROC
        invariant 0 <= k <= NPROC
        invariant Reparenting(k, woke, cur, mid, ticks, b0, rrq0, pq0)
      {
        woke := ExitScanSlot(k, woke, cur, mid, ticks, b0, rrq0, pq0);
        k := k + 1;
      }
    }

    /** The loop state of exit's scan: slots below k done, and woke telling
        whether one of them held a zombie child of cur. */
    ghost predicate Reparenting(k: nat, woke: bool, cur: nat, mid: seq<Proc>, ticks: nat, b0: int,
                                rrq0: seq<nat>, pq0: map<nat, int>)
      reads this, procs
    {
      && Valid() && ExitScanned(k, woke, cur, mid, ticks, b0, rrq0, pq0)
      && (woke <==> exists j :: 0 <= j < k && Matches(ZombieChild(cur), mid[j]))
    }

    /** The table during exit's scan once slots below k are done, the
        baseline unchanged. */
    ghost predicate ExitScanned(k: nat, woke: bool, cur: nat, mid: seq<Proc>, ticks: nat, b0: int,
                                rrq0: seq<nat>, pq0: map<nat, int>)
      reads this, procs
    {
      && k <= NPROC == procs.Length
      && |mid| == NPROC
      && procs[..] == ExitScan(mid, k, woke, cur, initProc, ticks, policy, b0)
      && (policy == SP_PS ==> GetMinAcc() == b0)
      && Queued(policy, rrq0, pq0, if woke then SleepersOn(mid, ChanOf(initProc), NPROC) else [],
                if woke then WokenKeys(mid, ChanOf(initProc), NPROC, policy, b0) else map[], rrq, pq)
    }

    /** One step of exit's scan: a child of cur at slot k goes to initproc,
        and if it is a zombie initproc's waiters are woken. */
    method ExitScanSlot(k: nat, ghost woke: bool, cur: nat, ghost mid: seq<Proc>, ticks: nat, ghost b0: int,
                        ghost rrq0: seq<nat>, ghost pq0: map<nat, int>)
      returns (ghost woke': bool)
      requires Valid() && k < NPROC && ExitScanned(k, woke, cur, mid, ticks, b0, rrq0, pq0)
      modifies procs, this`rrq, this`pq
      ensures Valid() && ExitScanned(k + 1, woke', cur, mid, ticks, b0, rrq0, pq0)
      ensures woke' <==> woke || Matches(ZombieChild(cur), mid[k])
    {
      woke' := woke;
      ExitScanMove(mid, k, woke, cur, initProc, ticks, policy, b0);
      if procs[k].parent == Some(cur) {
        SetParent(k, initProc);
        if procs[k].state == Zombie {
          ExitWakeInit(k + 1, woke, cur, mid, ticks, b0, rrq0, pq0);
          woke' := true;
        }
      }
    }

    /** The wakeup1 on initproc during exit's scan. */
    method ExitWakeInit(k: nat, ghost woke: bool, cur: nat, ghost mid: seq<Proc>, ticks: nat, ghost b0: int,
                        ghost rrq0: seq<nat>, ghost pq0: map<nat, int>)
      requires Valid() && ExitScanned(k, woke, cur, mid, ticks, b0, rrq0, pq0)
      modifies procs, this`rrq, this`pq
      ensures Valid() && ExitScanned(k, true, cur, mid, ticks, b0, rrq0, pq0)
    {
      ghost var s := SleepersOn(mid, ChanOf(initProc), NPROC);
      ghost var m := WokenKeys(mid, ChanOf(initProc), NPROC, policy, b0);
      ghost var before := procs[..];
      ghost var b1 := GetMinAcc();
      WakeUp1(ChanOf(initProc), ticks);
      ExitScanWake(mid, k, woke, cur, initProc, ticks, policy, b0, b1);
      ExitScanSleepers(mid, k, woke, cur, initProc, ticks, policy, b0, b1);
      QueuedOnce(policy, rrq0, pq0, s, m, woke, old(rrq), old(pq), rrq, pq);
    }

    /** The end of exit before sched: the exit status is recorded, the running
        interval closes with -ticks, and the process becomes a ZOMBIE with
        termination tick `ticks`. It stays in the running holder until its
        scheduler takes it out. */
    method BecomeZombie(cur: nat, status: int, ticks: nat)
      requires Valid() && cur < procs.Length && procs[cur].state == Running
      modifies procs
      ensures Inv(-1, cur)
      ensures procs[..] == old(procs[..])[cur := Zombified(old(procs[cur]), status, ticks)]
    {
      procs[cur] := procs[cur].(status := status);
      var ok := UpdatePerfField(-(ticks as int), RUTIME, cur);
      procs[cur] := procs[cur].(state := Zombie, ttime := ticks);
      ZombieRecord(old(procs[cur]), status, ticks);
      forall i | 0 <= i < NPROC
        ensures SlotOk(i, -1, cur)
      {
        assert old(SlotOk(i, -1, -1));
      }
    }

    /** set_all_accumulators: every slot's accumulator becomes value. */
    method SetAllAccumulators(value: int)
      requires Valid()
      modifies procs
      ensures Valid()
      ensures procs[..] == AccumulatorsSet(old(procs[..]), NPROC, value)
    {
      ghost var before := procs[..];
      var i := 0;
      while i < NPROC
        invariant 0 <= i <= NPROC
        invariant Valid() && procs[..] == AccumulatorsSet(before, i, value)
      {
        StoreAccumulator(i, value);
        assert procs[..] == AccumulatorsSet(before, i + 1, value);
        i := i + 1;
      }
    }

    /** One slot's accumulator is overwritten; the invariant does not depend
        on accumulators. */
    method StoreAccumulator(k: nat, value: int)
      requires Valid() && k < procs.Length
      modifies procs
      ensures Valid()
      ensures procs[..] == old(procs[..])[k := old(procs[k]).(accumulator := value)]
    {
      procs[k] := procs[k].(accumulator := value);
      forall i | 0 <= i < NPROC
        ensures SlotOk(i, -1, -1)
      {
        assert old(SlotOk(i, -1, -1));
      }
    }

    /** set_filtered_priorities: every slot whose priority is `filter` gets
        priority `value`. The one call, policy's, passes 0 and 1. */
    method SetFilteredPriorities(filter: int, value: int)
      requires Valid() && 0 < value <= 10
      modifies procs
      ensures Valid()
      ensures procs[..] == PrioritiesFiltered(old(procs[..]), NPROC, filter, value)
    {
      ghost var before := procs[..];
      var i := 0;
      while i < NPROC
        invariant 0 <= i <= NPROC
        invariant Valid() && procs[..] == PrioritiesFiltered(before, i, filter, value)
      {
        if procs[i].priority == filter {
          StorePriority(i, value);
        }
        assert procs[..] == PrioritiesFiltered(before, i + 1, filter, value);
        i := i + 1;
      }
    }

    /** One slot's priority is overwritten with a value every policy accepts. */
    method StorePriority(k: nat, value: int)
      requires Valid() && k < procs.Length && 0 < value <= 10
      modifies procs
      ensures Valid()
      ensures procs[..] == old(procs[..])[k := old(procs[k]).(priority := value)]
    {
      procs[k] := procs[k].(priority := value);
      forall i | 0 <= i < NPROC
        ensures SlotOk(i, -1, -1)
      {
        assert old(SlotOk(i, -1, -1));
      }
    }

    /** rrq.switchToPriorityQueuePolicy: the FIFO is emptied head first into
        the priority queue, each slot keyed by its current accumulator. */
    method FifoToPriorityQueue()
      requires forall k :: 0 <= k < |rrq| ==> rrq[k] < procs.Length
      modifies this`rrq, this`pq
      ensures rrq == []
      ensures pq == old(pq) + FifoKeys(procs[..], old(rrq))
    {
      ghost var fifo := rrq;
      ghost var n := 0;
      while rrq != []
        invariant n <= |fifo| && rrq == fifo[n..]
        invariant pq == old(pq) + FifoKeys(procs[..], fifo[..n])
        decreases |rrq|
      {
        var p := rrq[0];
        FifoKeysStep(procs[..], fifo, n);
        PutAfterUnion(old(pq), FifoKeys(procs[..], fifo[..n]), p, procs[p].accumulator);
        rrq := rrq[1..];
        pq := pq[p := procs[p].accumulator];
        n := n + 1;
      }
      assert fifo[..n] == fifo;
    }

    /** pq.switchToRoundRobinPolicy: every queued slot is appended to the FIFO
        once, in an order the queue's implementation decides (`drained`). */
    method PriorityQueueToFifo() returns (ghost drained: seq<nat>)
      modifies this`rrq, this`pq
      ensures pq == map[] && rrq == old(rrq) + drained
      ensures forall k :: k in drained <==> k in old(pq)
      ensures forall a, b :: 0 <= a < b < |drained| ==> drained[a] != drained[b]
      ensures old(pq) == map[] ==> drained == []
    {
      drained := [];
      while pq != map[]
        invariant rrq == old(rrq) + drained
        invariant old(pq) == map[] ==> drained == []
        invariant forall k :: k in pq ==> k in old(pq)
        invariant forall k :: k in drained <==> k in old(pq) && k !in pq
        invariant forall a, b :: 0 <= a < b < |drained| ==> drained[a] != drained[b]
        decreases |pq|
      {
        var p :| p in pq;
        rrq := rrq + [p];
        drained := drained + [p];
        pq := pq - {p};
      }
    }

    /** The transfer into the priority queue when the policy leaves
        round-robin for `target`. */
    method SwitchToPriorityQueue(target: int)
      requires Valid() && policy == SP_RRS && (target == SP_PS || target == SP_EPS)
      requires target == SP_PS ==> forall i :: 0 <= i < procs.Length ==> procs[i].priority != 0
      modifies this`rrq, this`pq, this`policy
      ensures Valid() && policy == target
      ensures rrq == [] && pq == FifoKeys(procs[..], old(rrq))
    {
      FifoToPriorityQueue();
      policy := target;
      forall i | 0 <= i < NPROC
        ensures SlotOk(i, -1, -1)
      {
        assert old(SlotOk(i, -1, -1));
      }
    }

    /** The transfer into the FIFO when the policy becomes round-robin. */
    method SwitchToRoundRobin() returns (ghost drained: seq<nat>)
      requires Valid()
      modifies this`rrq, this`pq, this`policy
      ensures Valid() && policy == SP_RRS && pq == map[]
      ensures rrq == old(rrq) + drained && forall k :: k in drained <==> k in old(pq)
    {
      drained := PriorityQueueToFifo();
      policy := SP_RRS;
      assert QueuesOk(-1) by {
        if old(policy) == SP_RRS {
          assert rrq == old(rrq);
        } else {
          assert rrq == drained;
          forall k | 0 <= k < |rrq|
            ensures rrq[k] < NPROC
          {
            assert rrq[k] in old(pq);
          }
        }
      }
      forall i | 0 <= i < NPROC
        ensures SlotOk(i, -1, -1)
      {
        assert old(SlotOk(i, -1, -1));
        assert i in rrq <==> i in old(rrq) || i in drained;
      }
    }

    /** policy(target): an id outside 1..3 is a panic (halted) that changes
        nothing. Otherwise round-robin resets every accumulator and takes over
        the priority queue's slots; 3 issued under 1 moves the FIFO into the
        priority queue; every other target rewrites priority 0 to 1 and moves
        the FIFO over if it leaves round-robin. The policy is then `target`. */
    method Policy(target: int) returns (halted: bool)
      requires Valid()
      modifies procs, this`rrq, this`pq, this`policy
      ensures Valid()
      ensures halted <==> !(SP_RRS <= target <= SP_EPS)
      ensures halted ==> procs[..] == old(procs[..]) && policy == old(policy) && rrq == old(rrq) && pq == old(pq)
      ensures !halted ==> policy == target
      ensures !halted && target == SP_RRS ==>
        && procs[..] == AccumulatorsSet(old(procs[..]), NPROC, RRS_ACC_VAL)
        && pq == map[]
        && |old(rrq)| <= |rrq| && rrq[..|old(rrq)|] == old(rrq)
        && (forall k :: k in rrq[|old(rrq)|..] <==> k in old(pq))
      ensures !halted && target != SP_RRS ==>
        && procs[..] == (if RemapsPriorities(target, old(policy)) then PrioritiesFiltered(old(procs[..]), NPROC, 0, 1)
                         else old(procs[..]))
        && rrq == []
        && pq == (if old(policy) == SP_RRS then FifoKeys(old(procs[..]), old(rrq)) else old(pq))
    {
      if !(SP_RRS <= target <= SP_EPS) {
        return true;
      }
      if target == SP_EPS && policy == SP_RRS {
        SwitchToPriorityQueue(target);
      } else if target == SP_RRS {
        SetAllAccumulators(RRS_ACC_VAL);
        ghost var drained := SwitchToRoundRobin();
        assert rrq[|old(rrq)|..] == drained;
      } else {
        SetFilteredPriorities(0, 1);
        assert forall i :: 0 <= i < procs.Length ==> procs[i].priority != 0 by {
          assert procs[..] == PrioritiesFiltered(old(procs[..]), NPROC, 0, 1);
          forall i | 0 <= i < procs.Length
            ensures procs[i].priority != 0
          {
            assert procs[i] == procs[..][i];
          }
        }
        if policy == SP_RRS {
          SwitchToPriorityQueue(target);
          assert FifoKeys(procs[..], old(rrq)) == FifoKeys(old(procs[..]), old(rrq));
        } else {
          Retarget(target);
        }
      }
      return false;
    }

    /** The policy changes between the two priority policies; nothing else
        does. */
    method Retarget(target: int)
      requires Valid() && policy != SP_RRS && (target == SP_PS || target == SP_EPS)
      requires forall i :: 0 <= i < procs.Length ==> procs[i].priority != 0
      modifies this`policy
      ensures Valid() && policy == target
    {
      policy := target;
      forall i | 0 <= i < NPROC
        ensures SlotOk(i, -1, -1)
      {
        assert old(SlotOk(i, -1, -1));
      }
    }

    /** swtch_to_proc up to the context switch: the picked process closes its
        ready interval, becomes RUNNING, opens its running interval, gets the
        current dispatch stamp, the stamp advances by one and the process
        joins the running holder. The stamp is a long long, so it must not be
        at its maximum. */
    method SwitchIn(p: nat, ticks: nat)
      requires Inv(p, -1) && p < procs.Length && procs[p].state == Runnable && tqTimestamp < LLONG_MAX
      modifies procs, this`tqTimestamp, this`running
      ensures Valid()
      ensures procs[..] == old(procs[..])[p := Dispatched(old(procs[p]), ticks, old(tqTimestamp))]
      ensures tqTimestamp == old(tqTimestamp) + 1
      ensures running == old(running) + {p}
    {
      assert p !in running by { assert SlotOk(p, p, -1); }
      var ok := UpdatePerfField(ticks, RETIME, p);
      procs[p] := procs[p].(state := Running);
      ok := UpdatePerfField(-(ticks as int), RUTIME, p);
      procs[p] := procs[p].(lastTq := tqTimestamp);
      tqTimestamp := tqTimestamp + 1;
      running := running + {p};
      DispatchRecord(old(procs[p]), ticks, old(tqTimestamp));
      forall i | 0 <= i < NPROC
        ensures SlotOk(i, -1, -1)
      {
        assert old(SlotOk(i, p, -1));
      }
    }

    /** The context switch seen from the scheduler: the dispatched process
        runs until it yields, sleeps or exits, and control comes back with it
        out of the running holder. Its stamp, priority and, unless it exits,
        accumulator are as they were. */
    method RunStep(p: nat, step: Step) returns (halted: bool)
      requires Valid() && p < procs.Length && procs[p].state == Running
      modifies procs, this`rrq, this`pq, this`running
      ensures Valid()
      ensures halted <==> step.ExitStep? && initProc == Some(p)
      ensures !halted ==> running == old(running) - {p} && procs[p].state == StateAfter(step)
      ensures procs[p].lastTq == old(procs[p].lastTq) && procs[p].priority == old(procs[p].priority)
      ensures step.YieldStep? ==>
        && procs[p].accumulator == old(procs[p].accumulator)
        && (policy != SP_RRS ==> pq == old(pq)[p := old(procs[p].accumulator)])
      ensures halted ==> procs[..] == old(procs[..]) && rrq == old(rrq) && pq == old(pq) && running == old(running)
      ensures !halted ==>
        && procs[..] == AfterStep(old(procs[..]), p, step, initProc, policy, old(GetMinAcc()))
        && Queued(policy, old(rrq), old(pq), FifoAfterStep(old(procs[..]), p, step, initProc, policy, old(GetMinAcc())),
                  KeysAfterStep(old(procs[..]), p, step, initProc, policy, old(GetMinAcc())), rrq, pq)
    {
      match step {
        case YieldStep(ticks) =>
          Yield(p, ticks);
          QueuedOne(policy, old(rrq), old(pq), p, old(procs[p].accumulator), rrq, pq);
          halted := false;
        case SleepStep(chan, ticks) =>
          Sleep(p, chan, ticks);
          QueuedNone(policy, rrq, pq);
          halted := false;
        case ExitStep(status, ticks) =>
          ghost var before := procs[..];
          ghost var b0 := GetMinAcc();
          halted := Exit(p, status, ticks);
          if !halted {
            ExitedSelf(before, p, status, initProc, ticks, policy, b0);
          }
      }
    }

    /** The post-dispatch charge of the priority policies: p's accumulator
        grows by its priority. The queue keeps the key p was put with. */
    method Accumulate(p: nat)
      requires Valid() && p < procs.Length
      modifies procs
      ensures Valid()
      ensures procs[..] == Charge(old(procs[..]), p)
    {
      procs[p] := procs[p].(accumulator := procs[p].accumulator + procs[p].priority);
      forall i | 0 <= i < NPROC
        ensures SlotOk(i, -1, -1)
      {
        assert old(SlotOk(i, -1, -1));
      }
    }

    /** pq.extractMin: removes and returns a slot with a minimal key. Which
        one of several equal keys is left open. */
    method ExtractMin() returns (p: nat)
      requires Valid() && pq != map[]
      modifies this`pq
      ensures Inv(p, -1) && p < procs.Length && procs[p].state == Runnable
      ensures MinKey(old(pq), p) && pq == old(pq) - {p}
    {
      assert exists k :: k < NPROC && k in pq by {
        var k :| k in pq;
      }
      var m := MinBelow(pq, NPROC);
      p :| p < NPROC && p in pq && pq[p] == m.value;
      pq := pq - {p};
      assert procs[p].state == Runnable by { assert old(SlotOk(p, -1, -1)); }
      forall i | 0 <= i < NPROC
        ensures SlotOk(i, p, -1)
      {
        assert old(SlotOk(i, -1, -1));
      }
    }

    /** Whether p is the RUNNABLE slot with the smallest last dispatch stamp,
        the first in table order among equals. */
    ghost predicate OldestRunnable(p: nat)
      reads this, procs
    {
      && p < procs.Length
      && procs[p].state == Runnable
      && (forall j :: 0 <= j < p && procs[j].state == Runnable ==> procs[p].lastTq < procs[j].lastTq)
      && (forall j :: p <= j < procs.Length && procs[j].state == Runnable ==> procs[p].lastTq <= procs[j].lastTq)
    }

    /** proc_with_min_timestamp: the scan for the RUNNABLE slot with the
        strictly smallest stamp below LLONG_MAX, which is then taken out of
        the priority queue (pq.extractProc). Every RUNNABLE slot is queued and
        its stamp lies below the current one, so the scan finds one. */
    method ProcWithMinTimestamp() returns (p: nat)
      requires Valid() && pq != map[] && tqTimestamp <= LLONG_MAX
      modifies this`pq
      ensures Inv(p, -1) && OldestRunnable(p)
      ensures pq == old(pq) - {p}
    {
      var result: Option<nat> := None;
      var minStamp := LLONG_MAX;
      var i := 0;
      while i < NPROC
        invariant 0 <= i <= NPROC
        invariant result.None? ==> minStamp == LLONG_MAX
        invariant result.None? ==> forall j :: 0 <= j < i && procs[j].state == Runnable ==> LLONG_MAX <= procs[j].lastTq
        invariant result.Some? ==> result.value < i && procs[result.value].state == Runnable
        invariant result.Some? ==> minStamp == procs[result.value].lastTq
        invariant result.Some? ==> forall j :: 0 <= j < result.value && procs[j].state == Runnable ==> minStamp < procs[j].lastTq
        invariant result.Some? ==> forall j :: result.value <= j < i && procs[j].state == Runnable ==> minStamp <= procs[j].lastTq
      {
        if procs[i].state == Runnable && minStamp > procs[i].lastTq {
          minStamp := procs[i].lastTq;
          result := Some(i);
        }
        i := i + 1;
      }
      assert result.Some? by {
        var k :| k in pq;
        assert SlotOk(k, -1, -1);
      }
      p := result.value;
      assert p in pq by { assert SlotOk(p, -1, -1); }
      ExtractProc(p);
    }

    /** pq.extractProc: takes a queued slot out of the priority queue. */
    method ExtractProc(p: nat)
      requires Valid() && p < procs.Length && p in pq
      modifies this`pq
      ensures Inv(p, -1) && pq == old(pq) - {p}
    {
      pq := pq - {p};
      forall i | 0 <= i < NPROC
        ensures SlotOk(i, p, -1)
      {
        assert old(SlotOk(i, -1, -1));
      }
    }

    /** proc_to_run: every TQ_THRESHOLD-th decision is an aging decision that
        takes the oldest RUNNABLE slot; the others take a minimal key. */
    method ProcToRun() returns (p: nat)
      requires Valid() && pq != map[] && tqTimestamp <= LLONG_MAX
      modifies this`pq
      ensures Inv(p, -1) && p < procs.Length && procs[p].state == Runnable
      ensures p in old(pq) && pq == old(pq) - {p}
      ensures tqTimestamp % TQ_THRESHOLD == 0 ==> OldestRunnable(p)
      ensures tqTimestamp % TQ_THRESHOLD != 0 ==> MinKey(old(pq), p)
    {
      if tqTimestamp % TQ_THRESHOLD == 0 {
        p := ProcWithMinTimestamp();
        assert p in old(pq) by { assert old(SlotOk(p, -1, -1)); }
      } else {
        p := ExtractMin();
      }
    }

    /** sp_round_robin: the FIFO's head is dispatched. */
    method SpRoundRobin(ticks: nat, step: Step) returns (r: Dispatch)
      requires Valid() && policy == SP_RRS && tqTimestamp < LLONG_MAX
      modifies procs, this`rrq, this`pq, this`running, this`tqTimestamp
      ensures Valid()
      ensures r.Idle? <==> old(rrq) == []
      ensures r.Idle? ==> procs[..] == old(procs[..]) && tqTimestamp == old(tqTimestamp)
      ensures r.Idle? ==> rrq == old(rrq) && pq == old(pq) && running == old(running)
      ensures r.Ran? ==> r.slot == old(rrq[0]) && Bookkept(r, old(tqTimestamp), old(running), step)
      ensures r.Ran? ==> DispatchedRound(r.slot, r.halted, ticks, step, old(procs[..]), old(rrq)[1..], old(pq),
                                         old(running), old(tqTimestamp))
    {
      if rrq == [] {
        return Idle;
      }
      var p := rrq[0];
      rrq := rrq[1..];
      forall i | 0 <= i < NPROC
        ensures SlotOk(i, p, -1)
      {
        assert old(SlotOk(i, -1, -1));
      }
      assert SlotOk(p, p, -1);
      var halted := RunDequeued(p, ticks, step);
      return Ran(p, halted);
    }

    /** The dispatch of sp_round_robin once the head is dequeued: switched
        in, then its step, with no charge. */
    method RunDequeued(p: nat, ticks: nat, step: Step) returns (halted: bool)
      requires Inv(p, -1) && p < procs.Length && procs[p].state == Runnable
      requires policy == SP_RRS && tqTimestamp < LLONG_MAX
      modifies procs, this`rrq, this`pq, this`running, this`tqTimestamp
      ensures Valid()
      ensures Bookkept(Ran(p, halted), old(tqTimestamp), old(running), step)
      ensures DispatchedRound(p, halted, ticks, step, old(procs[..]), old(rrq), old(pq), old(running), old(tqTimestamp))
    {
      assert p !in running by { assert SlotOk(p, p, -1); }
      SwitchIn(p, ticks);
      ghost var ps1 := procs[..];
      ghost var b := GetMinAcc();
      assert b == Baseline(old(pq), AccsOf(ps1, old(running) + {p}), NPROC);
      halted := RunStep(p, step);
    }

    /** What every dispatch leaves behind: the stamp advanced by exactly one,
        the dispatched process carries the old stamp, it is in the state its
        step put it in, and the running holder is as before. */
    ghost predicate Bookkept(r: Dispatch, stamp: int, running0: set<nat>, step: Step)
      reads this, procs
      requires r.Ran?
    {
      && r.slot < procs.Length
      && tqTimestamp == stamp + 1
      && procs[r.slot].lastTq == stamp
      && (!r.halted ==> running == running0 && procs[r.slot].state == StateAfter(step))
    }

    /** sp_priority: a slot with a minimal key is dispatched; if it comes back
        RUNNABLE its accumulator grows by its priority. That happens after
        yield has put it back, so its queue key stays the accumulator it
        yielded with. */
    method SpPriority(ticks: nat, step: Step) returns (r: Dispatch)
      requires Valid() && policy == SP_PS && tqTimestamp < LLONG_MAX
      modifies procs, this`rrq, this`pq, this`running, this`tqTimestamp
      ensures Valid()
      ensures r.Idle? <==> old(pq) == map[]
      ensures r.Idle? ==> procs[..] == old(procs[..]) && tqTimestamp == old(tqTimestamp)
      ensures r.Idle? ==> rrq == old(rrq) && pq == old(pq) && running == old(running)
      ensures r.Ran? ==> MinKey(old(pq), r.slot) && Bookkept(r, old(tqTimestamp), old(running), step)
      ensures r.Ran? && step.YieldStep? ==> Charged(r.slot, old(procs[r.slot]))
      ensures r.Ran? ==> DispatchedRound(r.slot, r.halted, ticks, step, old(procs[..]), old(rrq), old(pq) - {r.slot},
                                         old(running), old(tqTimestamp))
    {
      if pq == map[] {
        return Idle;
      }
      var p := ExtractMin();
      r := RunAndCharge(p, ticks, step);
    }

    /** sp_ext_priority: proc_to_run picks the slot, which is then dispatched
        and charged as under sp_priority. */
    method SpExtPriority(ticks: nat, step: Step) returns (r: Dispatch)
      requires Valid() && policy == SP_EPS && tqTimestamp < LLONG_MAX
      modifies procs, this`rrq, this`pq, this`running, this`tqTimestamp
      ensures Valid()
      ensures r.Idle? <==> old(pq) == map[]
      ensures r.Idle? ==> procs[..] == old(procs[..]) && tqTimestamp == old(tqTimestamp)
      ensures r.Ran? ==> r.slot in old(pq) && Bookkept(r, old(tqTimestamp), old(running), step)
      ensures r.Ran? && old(tqTimestamp) % TQ_THRESHOLD != 0 ==> MinKey(old(pq), r.slot)
      ensures r.Ran? && old(tqTimestamp) % TQ_THRESHOLD == 0 ==> old(OldestRunnable(r.slot))
      ensures r.Ran? && step.YieldStep? ==> Charged(r.slot, old(procs[r.slot]))
      ensures r.Idle? ==> rrq == old(rrq) && pq == old(pq) && running == old(running)
      ensures r.Ran? ==> DispatchedRound(r.slot, r.halted, ticks, step, old(procs[..]), old(rrq), old(pq) - {r.slot},
                                         old(running), old(tqTimestamp))
    {
      if pq == map[] {
        return Idle;
      }
      var p := ProcToRun();
      r := RunAndCharge(p, ticks, step);
    }

    /** The dispatch shared by the two priority policies once the slot is
        picked. */
    method RunAndCharge(p: nat, ticks: nat, step: Step) returns (r: Dispatch)
      requires Inv(p, -1) && p < procs.Length && procs[p].state == Runnable
      requires policy != SP_RRS && tqTimestamp < LLONG_MAX
      modifies procs, this`rrq, this`pq, this`running, this`tqTimestamp
      ensures Valid()
      ensures r.Ran? && r.slot == p && Bookkept(r, old(tqTimestamp), old(running), step)
      ensures step.YieldStep? ==> Charged(p, old(procs[p]))
      ensures DispatchedRound(p, r.halted, ticks, step, old(procs[..]), old(rrq), old(pq), old(running), old(tqTimestamp))
    {
      assert p !in running by { assert SlotOk(p, p, -1); }
      SwitchIn(p, ticks);
      ghost var ps1 := procs[..];
      ghost var b := GetMinAcc();
      assert b == Baseline(old(pq), AccsOf(ps1, old(running) + {p}), NPROC);
      var halted := RunStep(p, step);
      ghost var ps2 := procs[..];
      if !halted && procs[p].state == Runnable {
        Accumulate(p);
      }
      return Ran(p, halted);
    }

    /** The whole of one dispatch of slot p at `ticks` with stamp `stamp`,
        from table ps0 and running set running0 once p has left its ready
        queue, which then held rrq1 and pq1: p is switched in (Dispatched),
        takes its step against the baseline of that moment, and, under the
        priority policies, is charged its priority if it yielded. When the
        step is initproc's exit the round ends in a panic with p switched in
        and nothing else changed. */
    ghost predicate DispatchedRound(p: nat, halted: bool, ticks: nat, step: Step, ps0: seq<Proc>,
                                    rrq1: seq<nat>, pq1: map<nat, int>, running0: set<nat>, stamp: int)
      reads this, procs
    {
      && p < |ps0| == procs.Length
      && var ps1 := ps0[p := Dispatched(ps0[p], ticks, stamp)];
         var b := Baseline(pq1, AccsOf(ps1, running0 + {p}), |ps0|);
         var ps2 := AfterStep(ps1, p, step, initProc, policy, b);
      && tqTimestamp == stamp + 1
      && (halted <==> step.ExitStep? && initProc == Some(p))
      && (halted ==> procs[..] == ps1 && rrq == rrq1 && pq == pq1 && running == running0 + {p})
      && (!halted ==>
            && running == running0
            && procs[..] == (if policy != SP_RRS && step.YieldStep? then Charge(ps2, p) else ps2)
            && Queued(policy, rrq1, pq1, FifoAfterStep(ps1, p, step, initProc, policy, b),
                      KeysAfterStep(ps1, p, step, initProc, policy, b), rrq, pq))
    }

    /** A process dispatched under a priority policy that yielded: it is
        queued with the accumulator it had, and its accumulator has since
        grown by its priority. */
    ghost predicate Charged(p: nat, before: Proc)
      reads this, procs
    {
      && p < procs.Length
      && p in pq && pq[p] == before.accumulator
      && procs[p].accumulator == before.accumulator + before.priority
    }

    /** One pass of the per-CPU scheduler loop: the active policy's rule. */
    method Schedule(ticks: nat, step: Step) returns (r: Dispatch)
      requires Valid() && tqTimestamp < LLONG_MAX
      modifies procs, this`rrq, this`pq, this`running, this`tqTimestamp
      ensures Valid()
      ensures r.Idle? <==> old(rrq) == [] && old(pq) == map[]
      ensures r.Idle? ==> procs[..] == old(procs[..]) && tqTimestamp == old(tqTimestamp)
      ensures r.Idle? ==> rrq == old(rrq) && pq == old(pq) && running == old(running)
      ensures r.Ran? ==> Bookkept(r, old(tqTimestamp), old(running), step)
      ensures r.Ran? && policy == SP_RRS ==>
        && old(rrq) != [] && r.slot == old(rrq)[0]
        && DispatchedRound(r.slot, r.halted, ticks, step, old(procs[..]), old(rrq)[1..], old(pq),
                           old(running), old(tqTimestamp))
      ensures r.Ran? && policy == SP_PS ==>
        && MinKey(old(pq), r.slot)
        && DispatchedRound(r.slot, r.halted, ticks, step, old(procs[..]), old(rrq), old(pq) - {r.slot},
                           old(running), old(tqTimestamp))
      ensures r.Ran? && policy == SP_EPS ==>
        && r.slot in old(pq)
        && (old(tqTimestamp) % TQ_THRESHOLD == 0 ==> old(OldestRunnable(r.slot)))
        && (old(tqTimestamp) % TQ_THRESHOLD != 0 ==> MinKey(old(pq), r.slot))
        && DispatchedRound(r.slot, r.halted, ticks, step, old(procs[..]), old(rrq), old(pq) - {r.slot},
                           old(running), old(tqTimestamp))
    {
      if policy == SP_RRS {
        r := SpRoundRobin(ticks, step);
      } else if policy == SP_PS {
        r := SpPriority(ticks, step);
      } else {
        r := SpExtPriority(ticks, step);
      }
    }
  }
}
