/**
 * The scheduler state of threads/thread.c as one object: the ready, sleeping
 * and all-threads lists, the thread records, the running, idle and initial
 * threads, the tick statistics, the tid counter and the MLFQS load average.
 *
 * A thread is named by the page that holds its record (ThreadRef); the
 * table `threads` maps each live page to its record.  A context switch is
 * the assignment of the next thread to `current`; a page handed back to the
 * page allocator leaves `threads` and joins `freed`.
 */
module Threads {
  import opened FprArith
  import opened ThreadModel
  import opened SchedulerInvariants

  datatype Option<T> = None | Some(value: T)

  class Scheduler {
    var readyList: seq<ThreadRef>
    var sleepingList: seq<ThreadRef>
    var allList: seq<ThreadRef>
    var threads: map<ThreadRef, Thread>
    var current: ThreadRef
    const idleThread: ThreadRef
    const initialThread: ThreadRef
    /** The "-o mlfqs" kernel option. */
    const mlfqs: bool

    var ticks: int
    var idleTicks: int
    var kernelTicks: int
    /** Timer ticks since the running thread was last scheduled. */
    var threadTicks: nat
    /** The counter behind allocate_tid. */
    var nextTid: int
    var loadAvg: FPReal
    /** Pages given back to the page allocator and not handed out again. */
    var freed: set<ThreadRef>
    /** Set by intr_yield_on_return: yield when the interrupt handler returns. */
    var yieldOnReturn: bool

    /**
     * The lists and records agree; `picked` is a thread next_thread_to_run
     * has taken off the ready list that is not yet marked running.
     */
    predicate ListsOk(picked: set<ThreadRef>)
      reads this`readyList, this`sleepingList, this`allList, this`threads, this`current, this`nextTid, this`freed
    {
      Consistent(readyList, sleepingList, allList, threads, current, idleThread, initialThread, nextTid, freed, picked)
    }

    /** The state between two scheduler calls: exactly the current thread runs. */
    predicate Valid()
      reads this`readyList, this`sleepingList, this`allList, this`threads, this`current, this`nextTid, this`freed
    {
      Settled(readyList, sleepingList, allList, threads, current, idleThread, initialThread, nextTid, freed)
    }

    /** The state schedule() demands: the current thread has stopped running. */
    predicate Descheduled()
      reads this`readyList, this`sleepingList, this`allList, this`threads, this`current, this`nextTid, this`freed
    {
      ListsOk({}) && NoneRunning(threads) && DyingOnly(threads, {initialThread, current})
    }

    /** The state thread_schedule_tail demands, just after the switch from `prev`. */
    predicate Switched(prev: Option<ThreadRef>)
      reads this`readyList, this`sleepingList, this`allList, this`threads, this`current, this`nextTid, this`freed
    {
      ListsOk({current}) &&
      (current == idleThread || threads[current].status == Ready) &&
      NoneRunning(threads) &&
      DyingOnly(threads, if prev.Some? then {initialThread, prev.value} else {initialThread}) &&
      (prev.Some? ==> prev.value in threads && prev.value != current)
    }

    /**
     * thread_init followed by thread_start: the code already running becomes
     * the initial thread (tid 1), and the idle thread (tid 2) is created,
     * runs once and blocks, so that the initial thread runs again with an
     * empty ready list.
     */
    constructor Start(mlfqs: bool, initialPage: ThreadRef, idlePage: ThreadRef)
      requires initialPage != idlePage
      ensures Valid()
      ensures this.mlfqs == mlfqs && initialThread == initialPage && idleThread == idlePage
      ensures current == initialPage
      ensures threads == map[initialPage := InitThread(1, PriDefault, mlfqs).(status := Running),
                             idlePage := InitThread(2, PriMin, mlfqs)]
      ensures readyList == [] && sleepingList == [] && allList == [initialPage, idlePage]
      ensures nextTid == 3 && loadAvg == 0 && freed == {}
      ensures ticks == 0 && idleTicks == 0 && kernelTicks == 0 && threadTicks == 0 && !yieldOnReturn
    {
      this.mlfqs := mlfqs;
      initialThread := initialPage;
      idleThread := idlePage;
      current := initialPage;
      threads := map[initialPage := InitThread(1, PriDefault, mlfqs).(status := Running),
                     idlePage := InitThread(2, PriMin, mlfqs)];
      readyList := [];
      sleepingList := [];
      allList := [initialPage, idlePage];
      nextTid := 3;
      loadAvg := 0;
      freed := {};
      ticks, idleTicks, kernelTicks, threadTicks := 0, 0, 0, 0;
      yieldOnReturn := false;
    }

    /** allocate_tid: tids are handed out in increasing order from 1. */
    method AllocateTid() returns (tid: int)
      modifies this`nextTid
      ensures tid == old(nextTid) && nextTid == tid + 1
    {
      tid := nextTid;
      nextTid := nextTid + 1;
    }

    /** thread_get_by_tid: the first thread of all_list with that tid, if there is one. */
    method GetByTid(tid: int) returns (r: Option<ThreadRef>)
      requires Valid()
      ensures r.Some? ==> exists i :: 0 <= i < |allList| && allList[i] == r.value && threads[r.value].tid == tid &&
                                     forall j :: 0 <= j < i ==> threads[allList[j]].tid != tid
      ensures r.None? <==> forall q :: q in allList ==> threads[q].tid != tid
    {
      r := None;
      var i := 0;
      while i < |allList|
        invariant 0 <= i <= |allList|
        invariant forall j :: 0 <= j < i ==> threads[allList[j]].tid != tid
      {
        if threads[allList[i]].tid == tid {
          r := Some(allList[i]);
          return;
        }
        i := i + 1;
      }
    }

    /**
     * thread_unblock: a blocked thread joins the back of the ready list.  It
     * does not preempt: the running thread stays the same.
     */
    method Unblock(t: ThreadRef)
      requires Valid()
      requires t in threads && threads[t].status == Blocked
      requires t != idleThread && t !in sleepingList
      modifies this`readyList, this`threads
      ensures Valid()
      ensures readyList == old(readyList) + [t]
      ensures threads == old(threads)[t := old(threads)[t].(status := Ready)]
    {
      UnblockKeeps(readyList, sleepingList, allList, threads, current, idleThread, initialThread, nextTid, freed, t);
      readyList := readyList + [t];
      threads := threads[t := threads[t].(status := Ready)];
    }

    /**
     * next_thread_to_run: the idle thread when nothing is ready, otherwise a
     * ready thread of the highest priority, taken off the ready list.
     */
    method NextThreadToRun() returns (next: ThreadRef)
      requires ListsOk({})
      modifies this`readyList
      ensures ListsOk({next})
      ensures NextChosen(old(readyList), readyList, next, idleThread, threads)
      ensures next in threads && (next == idleThread || threads[next].status == Ready)
    {
      if readyList == [] {
        next := idleThread;
      } else {
        var k := ListMax(readyList, threads);
        next := readyList[k];
        readyList := RemoveAt(readyList, k);
      }
      PickKeeps(old(readyList), readyList, next, sleepingList, allList, threads, current, idleThread, initialThread, nextTid, freed);
    }

    /**
     * thread_schedule_tail: the thread switched to is marked running and
     * starts a new time slice; the thread switched from is freed when it is
     * dying, unless it is the initial thread, whose page was never allocated.
     */
    method ScheduleTail(prev: Option<ThreadRef>)
      requires Switched(prev)
      modifies this`threads, this`threadTicks, this`freed
      ensures Valid()
      ensures threadTicks == 0
      ensures var running := old(threads)[current := old(threads)[current].(status := Running)];
              if prev.Some? && old(threads)[prev.value].status == Dying && prev.value != initialThread
              then threads == running - {prev.value} && freed == old(freed) + {prev.value}
              else threads == running && freed == old(freed)
    {
      ghost var allowed := if prev.Some? then {initialThread, prev.value} else {initialThread};
      RunKeeps(readyList, sleepingList, allList, threads, current, idleThread, initialThread, nextTid, freed, allowed);
      threads := threads[current := threads[current].(status := Running)];
      threadTicks := 0;
      if prev.Some? && threads[prev.value].status == Dying && prev.value != initialThread {
        assert prev.value != current;
        FreePage(prev.value, allowed);
        assert allowed - {prev.value} == {initialThread};
      }
    }

    /** palloc_free_page on the page of a dying thread: its record is gone. */
    method FreePage(p: ThreadRef, ghost allowed: set<ThreadRef>)
      requires ListsOk({}) && OneRunning(threads, current) && DyingOnly(threads, allowed)
      requires p in threads && threads[p].status == Dying && p != current && p != initialThread
      modifies this`threads, this`freed
      ensures ListsOk({}) && OneRunning(threads, current) && DyingOnly(threads, allowed - {p})
      ensures threads == old(threads) - {p} && freed == old(freed) + {p}
    {
      FreeKeeps(readyList, sleepingList, allList, threads, current, idleThread, initialThread, nextTid, freed, p, allowed);
      threads := threads - {p};
      freed := freed + {p};
    }

    /**
     * schedule: switch from the current thread, which has stopped running,
     * to the thread next_thread_to_run picks.
     */
    method Schedule()
      requires Descheduled()
      modifies this`readyList, this`current, this`threads, this`threadTicks, this`freed
      ensures Valid()
      ensures threadTicks == 0
      ensures NextChosen(old(readyList), readyList, current, idleThread, old(threads))
      ensures old(threads)[old(current)].status == Dying && old(current) != initialThread ==>
                old(current) != current && freed == old(freed) + {old(current)} &&
                threads == old(threads)[current := old(threads)[current].(status := Running)] - {old(current)}
      ensures old(threads)[old(current)].status != Dying || old(current) == initialThread ==>
                freed == old(freed) && threads == old(threads)[current := old(threads)[current].(status := Running)]
    {
      var cur := current;
      var next := NextThreadToRun();
      var prev: Option<ThreadRef> := None;
      if cur != next {
        current := next;
        prev := Some(cur);
      }
      ScheduleTail(prev);
    }

    /**
     * thread_block: the running thread becomes blocked and the scheduler
     * switches away from it (to itself only when it is the idle thread and
     * nothing is ready).
     */
    method Block()
      requires Valid()
      modifies this`readyList, this`current, this`threads, this`threadTicks, this`freed
      ensures Valid()
      ensures threadTicks == 0 && freed == old(freed)
      ensures NextChosen(old(readyList), readyList, current, idleThread, old(threads))
      ensures var blocked := old(threads)[old(current) := old(threads)[old(current)].(status := Blocked)];
              threads == blocked[current := blocked[current].(status := Running)]
    {
      var rec := threads[current].(status := Blocked);
      BlockKeeps(readyList, sleepingList, allList, threads, current, idleThread, initialThread, nextTid, freed, rec, false);
      threads := threads[current := rec];
      ghost var blocked := threads;
      Schedule();
      SamePrioritiesSameChoice(old(readyList), readyList, current, idleThread, blocked, old(threads));
    }

    /**
     * thread_sleep: the running thread records its wake-up tick, goes to the
     * back of the sleeping list and blocks.
     */
    method Sleep(wakeupTick: int)
      requires Valid() && current != idleThread
      modifies this`readyList, this`sleepingList, this`current, this`threads, this`threadTicks, this`freed
      ensures Valid()
      ensures threadTicks == 0 && freed == old(freed)
      ensures sleepingList == old(sleepingList) + [old(current)]
      ensures current != old(current)
      ensures NextChosen(old(readyList), readyList, current, idleThread, old(threads))
      ensures var asleep := old(threads)[old(current) := old(threads)[old(current)].(wakeupAtTick := wakeupTick, status := Blocked)];
              threads == asleep[current := asleep[current].(status := Running)]
    {
      var th := current;
      // the wake-up tick, the sleeping list, then thread_block's status change
      var rec := threads[th].(wakeupAtTick := wakeupTick, status := Blocked);
      BlockKeeps(readyList, sleepingList, allList, threads, current, idleThread, initialThread, nextTid, freed, rec, true);
      threads := threads[th := rec];
      sleepingList := sleepingList + [th];
      ghost var asleep := threads;
      Schedule();
      SamePrioritiesSameChoice(old(readyList), readyList, current, idleThread, asleep, old(threads));
    }

    /**
     * check_sleeping_threads: every sleeper whose wake-up tick has come is
     * taken off the sleeping list and unblocked, in sleeping-list order; the
     * others stay asleep in the order they were.
     */
    method CheckSleepingThreads(now: int)
      requires Valid()
      modifies this`readyList, this`sleepingList, this`threads
      ensures Valid()
      ensures sleepingList == Late(old(sleepingList), old(threads), now)
      ensures readyList == old(readyList) + Due(old(sleepingList), old(threads), now)
      ensures threads == Woken(old(threads), Due(old(sleepingList), old(threads), now))
    {
      // one pass decides who wakes; the due ones leave the list (list_remove) ...
      var kept, woke := SplitSleepers(sleepingList, threads, now);
      SplitKeeps(readyList, sleepingList, allList, threads, current, idleThread, initialThread, nextTid, freed, now);
      sleepingList := kept;
      // ... and are unblocked in list order (thread_unblock)
      var k := 0;
      while k < |woke|
        invariant 0 <= k <= |woke|
        invariant Valid()
        invariant sleepingList == kept
        invariant readyList == old(readyList) + woke[..k]
        invariant threads == Woken(old(threads), woke[..k])
      {
        WakeStep(old(readyList), old(threads), woke, k);
        Unblock(woke[k]);
        k := k + 1;
      }
      assert woke[..k] == woke;
    }

    /**
     * thread_yield: the running thread becomes ready and, unless it is the
     * idle thread, goes to the back of the ready list; then the scheduler
     * picks again, possibly the same thread.
     */
    method Yield()
      requires Valid()
      modifies this`readyList, this`current, this`threads, this`threadTicks, this`freed
      ensures Valid()
      ensures threadTicks == 0 && freed == old(freed)
      ensures idleThread !in readyList
      ensures NextChosen(if old(current) != idleThread then old(readyList) + [old(current)] else old(readyList),
                         readyList, current, idleThread, old(threads))
      ensures var readied := old(threads)[old(current) := old(threads)[old(current)].(status := Ready)];
              threads == readied[current := readied[current].(status := Running)]
    {
      var cur := current;
      YieldKeeps(readyList, sleepingList, allList, threads, current, idleThread, initialThread, nextTid, freed);
      if cur != idleThread {
        readyList := readyList + [cur];
      }
      threads := threads[cur := threads[cur].(status := Ready)];
      ghost var queued, readied := readyList, threads;
      assert readied[cur].status != Dying;
      Schedule();
      SamePrioritiesSameChoice(queued, readyList, current, idleThread, readied, old(threads));
    }

    /**
     * thread_yield_for_higher_priority: yield exactly when some ready thread
     * has a strictly higher priority than the running one; on a tie the
     * running thread keeps the processor.  After a yield, a ready thread of
     * the highest priority runs.
     */
    method YieldForHigherPriority() returns (ghost yielded: bool)
      requires Valid()
      modifies this`readyList, this`current, this`threads, this`threadTicks, this`freed
      ensures Valid()
      ensures yielded <==> old(readyList) != [] && old(threads)[old(current)].priority < MaxPriority(old(readyList), old(threads))
      ensures !yielded ==> readyList == old(readyList) && current == old(current) && threads == old(threads) &&
                           threadTicks == old(threadTicks) && freed == old(freed)
      ensures yielded ==> current != old(current) && current in old(readyList) &&
                          old(threads)[current].priority == MaxPriority(old(readyList), old(threads))
      ensures yielded ==> threadTicks == 0 && freed == old(freed)
      ensures yielded ==> NextChosen(if old(current) != idleThread then old(readyList) + [old(current)] else old(readyList),
                                     readyList, current, idleThread, old(threads))
      ensures yielded ==> var readied := old(threads)[old(current) := old(threads)[old(current)].(status := Ready)];
                          threads == readied[current := readied[current].(status := Running)]
    {
      yielded := false;
      if readyList != [] {
        yielded := YieldIfOutranked();
      }
    }

    /**
     * The test shared by thread_yield_for_higher_priority and
     * thread_set_nice, on a non-empty ready list: yield when a ready thread
     * of the highest priority (list_max under thread_cmp_priority) has a
     * strictly higher priority than the running thread.
     */
    method YieldIfOutranked() returns (ghost yielded: bool)
      requires Valid() && readyList != []
      modifies this`readyList, this`current, this`threads, this`threadTicks, this`freed
      ensures Valid()
      ensures yielded <==> old(threads)[old(current)].priority < MaxPriority(old(readyList), old(threads))
      ensures !yielded ==> readyList == old(readyList) && current == old(current) && threads == old(threads) &&
                           threadTicks == old(threadTicks) && freed == old(freed)
      ensures yielded ==> current != old(current) && current in old(readyList) &&
                          old(threads)[current].priority == MaxPriority(old(readyList), old(threads))
      ensures yielded ==> threadTicks == 0 && freed == old(freed)
      ensures yielded ==> NextChosen(if old(current) != idleThread then old(readyList) + [old(current)] else old(readyList),
                                     readyList, current, idleThread, old(threads))
      ensures yielded ==> var readied := old(threads)[old(current) := old(threads)[old(current)].(status := Ready)];
                          threads == readied[current := readied[current].(status := Running)]
    {
      yielded := false;
      var k := ListMax(readyList, threads);
      if CmpPriority(threads[current], threads[readyList[k]]) {
        ghost var cur := current;
        ghost var queued := if cur != idleThread then readyList + [cur] else readyList;
        if cur != idleThread {
          MaxPriorityAppend(readyList, cur, threads);
        }
        Yield();
        yielded := true;
        NextChosenIsMax(queued, readyList, current, idleThread, old(threads));
      }
    }

    /** thread_set_priority: the running thread takes the new priority, then yields if it is no longer the highest. */
    method SetPriority(priority: Int32) returns (ghost yielded: bool)
      requires Valid()
      modifies this`readyList, this`current, this`threads, this`threadTicks, this`freed
      ensures Valid()
      ensures var changed := old(threads)[old(current) := old(threads)[old(current)].(priority := priority)];
              (yielded <==> old(readyList) != [] && priority < MaxPriority(old(readyList), old(threads))) &&
              (!yielded ==> current == old(current) && threads == changed && readyList == old(readyList) &&
                            threadTicks == old(threadTicks) && freed == old(freed)) &&
              (yielded ==> current != old(current) && current in old(readyList) &&
                           old(threads)[current].priority == MaxPriority(old(readyList), old(threads)) &&
                           NextChosen(if old(current) != idleThread then old(readyList) + [old(current)] else old(readyList),
                                      readyList, current, idleThread, changed) &&
                           threadTicks == 0 && freed == old(freed) &&
                           var readied := changed[old(current) := changed[old(current)].(status := Ready)];
                           threads == readied[current := readied[current].(status := Running)])
    {
      ghost var ready0, m0 := readyList, threads;
      threads := threads[current := threads[current].(priority := priority)];
      ShapeKeeps(ready0, sleepingList, allList, m0, threads, current, idleThread, initialThread, nextTid, freed);
      if ready0 != [] {
        MaxPrioritySame(ready0, m0, threads);
      }
      yielded := YieldForHigherPriority();
    }

    /**
     * thread_set_nice: the running thread takes the new niceness and the
     * priority computed from it, then yields if a ready thread now has a
     * strictly higher priority.
     */
    method SetNice(nice: Int32) returns (ghost yielded: bool)
      requires Valid() && readyList != []
      requires PriorityFits(threads[current].recentCpu, nice)
      modifies this`readyList, this`current, this`threads, this`threadTicks, this`freed
      ensures Valid()
      ensures var newPriority := RecalculatedPriority(old(threads)[old(current)].recentCpu, nice);
              var changed := old(threads)[old(current) := old(threads)[old(current)].(nice := nice, priority := newPriority)];
              (yielded <==> newPriority < MaxPriority(old(readyList), old(threads))) &&
              (!yielded ==> current == old(current) && threads == changed && readyList == old(readyList) &&
                            threadTicks == old(threadTicks) && freed == old(freed)) &&
              (yielded ==> current != old(current) && current in old(readyList) &&
                           old(threads)[current].priority == MaxPriority(old(readyList), old(threads)) &&
                           NextChosen(if old(current) != idleThread then old(readyList) + [old(current)] else old(readyList),
                                      readyList, current, idleThread, changed) &&
                           threadTicks == 0 && freed == old(freed) &&
                           var readied := changed[old(current) := changed[old(current)].(status := Ready)];
                           threads == readied[current := readied[current].(status := Running)])
    {
      SetOwnNice(nice);
      yielded := YieldIfOutranked();
    }

    /**
     * The first half of thread_set_nice: the running thread takes the new
     * nice value and thread_recalculate_priority gives it its new priority.
     * The running thread is not on the ready list, so the highest ready
     * priority does not change.
     */
    method SetOwnNice(nice: Int32)
      requires Valid() && PriorityFits(threads[current].recentCpu, nice)
      modifies this`threads
      ensures Valid()
      ensures threads == old(threads)[current := old(threads)[current].(nice := nice,
                priority := RecalculatedPriority(old(threads)[current].recentCpu, nice))]
      ensures readyList != [] ==> MaxPriority(readyList, threads) == MaxPriority(readyList, old(threads))
    {
      ghost var m0 := threads;
      var t := threads[current].(nice := nice);
      threads := threads[current := WithPriorityRecalculated(t)];
      ShapeKeeps(readyList, sleepingList, allList, m0, threads, current, idleThread, initialThread, nextTid, freed);
      if readyList != [] {
        MaxPrioritySame(readyList, m0, threads);
      }
    }

    /**
     * thread_recalculate_load_avg: load_avg becomes 59/60 of itself plus
     * 1/60 of the number of threads ready or running, the idle thread not
     * counted.
     */
    method RecalculateLoadAvg()
      requires LoadAvgFits(loadAvg, ReadyOrRunning(|readyList|, current == idleThread))
      modifies this`loadAvg
      ensures loadAvg == NewLoadAvg(old(loadAvg), |readyList|, current == idleThread)
    {
      var parcel1 := FprDivInt(FprMulInt(loadAvg, 59), 60);
      var parcel2;
      if current != idleThread {
        parcel2 := IntDivInt(|readyList| + 1, 60);
      } else {
        parcel2 := IntDivInt(|readyList|, 60);
      }
      loadAvg := FprAddFpr(parcel1, parcel2);
    }

    /**
     * thread_recalculate_priority_all_threads: thread_foreach applies
     * thread_recalculate_priority to every thread of all_list in turn.
     */
    method RecalculatePriorityAllThreads()
      requires Valid() && PrioritiesFit(threads, allList)
      modifies this`threads
      ensures Valid()
      ensures threads == PrioritiesRecalculated(old(threads), allList)
    {
      threads := SweepPriorities(threads, allList);
      ShapeKeeps(readyList, sleepingList, allList, old(threads), threads, current, idleThread, initialThread, nextTid, freed);
    }

    /**
     * thread_recalculate_recent_cpu_all_threads: thread_foreach applies
     * thread_recalculate_recent_cpu to every thread of all_list in turn.
     */
    method RecalculateRecentCpuAllThreads()
      requires Valid() && RecentCpusFit(threads, allList, loadAvg)
      modifies this`threads
      ensures Valid()
      ensures threads == RecentCpusRecalculated(old(threads), allList, loadAvg)
    {
      threads := SweepRecentCpus(threads, allList, loadAvg);
      ShapeKeeps(readyList, sleepingList, allList, old(threads), threads, current, idleThread, initialThread, nextTid, freed);
    }

    /**
     * The thread_mlfqs block of thread_tick: charge the running thread one
     * tick of recent_cpu, recompute every priority on every 4th timer tick,
     * and once a second recompute load_avg and then every recent_cpu.
     */
    method MlfqsTickStep(now: int)
      requires Valid() && MlfqsTickFits(threads, current, idleThread, allList, |readyList|, loadAvg, now)
      modifies this`threads, this`loadAvg
      ensures Valid()
      ensures (loadAvg, threads) == MlfqsTick(old(threads), current, idleThread, allList, |readyList|, old(loadAvg), now)
    {
      if current != idleThread {
        threads := threads[current := threads[current].(recentCpu := FprInc(threads[current].recentCpu))];
      }
      assert threads == Charged(old(threads), current, idleThread);
      ShapeKeeps(readyList, sleepingList, allList, old(threads), threads, current, idleThread, initialThread, nextTid, freed);
      if now % 4 == 0 {
        RecalculatePriorityAllThreads();
      }
      if now % TimerFreq == 0 {
        RecalculateLoadAvg();
        RecalculateRecentCpuAllThreads();
      }
    }

    /** Under MLFQS, nothing in the arithmetic of thread_tick at tick `now` overflows. */
    predicate TickFits(now: int)
      reads this`threads, this`allList, this`readyList, this`loadAvg, this`current
    {
      mlfqs ==> MlfqsTickFits(threads, current, idleThread, allList, |readyList|, loadAvg, now)
    }

    /**
     * thread_tick, at timer tick `now` (timer_ticks()): count the tick as
     * idle or kernel time, run the MLFQS bookkeeping, request a yield once
     * the time slice is used up, and wake the sleepers that are due.  The
     * time-slice count is advanced together with the statistics, before the
     * MLFQS steps rather than after them: those steps read and write none
     * of the counters and leave the running thread as it is, so the final
     * state is the same.
     */
    method Tick(now: int)
      requires Valid()
      requires TickFits(now)
      modifies this`ticks, this`idleTicks, this`kernelTicks, this`threads, this`loadAvg, this`threadTicks,
               this`yieldOnReturn, this`readyList, this`sleepingList
      ensures Valid()
      ensures var idle := if current == idleThread then 1 else 0;
              (ticks, idleTicks, kernelTicks, threadTicks) ==
              (old(ticks) + 1, old(idleTicks) + idle, old(kernelTicks) + 1 - idle, old(threadTicks) + 1)
      ensures yieldOnReturn == (old(yieldOnReturn) || threadTicks >= TimeSlice)
      ensures (threads, loadAvg, readyList, sleepingList) ==
              TickResult(mlfqs, old(threads), old(loadAvg), old(readyList), old(sleepingList), current, idleThread, allList, now)
    {
      CountTick();
      TickThreads(now);
    }

    /** The part of thread_tick that changes threads: the MLFQS steps, then check_sleeping_threads. */
    method TickThreads(now: int)
      requires Valid()
      requires TickFits(now)
      modifies this`threads, this`loadAvg, this`readyList, this`sleepingList
      ensures Valid()
      ensures (threads, loadAvg, readyList, sleepingList) ==
              TickResult(mlfqs, old(threads), old(loadAvg), old(readyList), old(sleepingList), current, idleThread, allList, now)
    {
      if mlfqs {
        MlfqsTickStep(now);
      }
      CheckSleepingThreads(now);
    }

    /**
     * The counters of thread_tick: every tick is counted as idle time or as
     * kernel time and against the running thread's time slice.
     */
    method CountTick()
      modifies this`ticks, this`idleTicks, this`kernelTicks, this`threadTicks, this`yieldOnReturn
      ensures var idle := if current == idleThread then 1 else 0;
              (ticks, idleTicks, kernelTicks, threadTicks) ==
              (old(ticks) + 1, old(idleTicks) + idle, old(kernelTicks) + 1 - idle, old(threadTicks) + 1)
      ensures yieldOnReturn == (old(yieldOnReturn) || threadTicks >= TimeSlice)
    {
      ticks := ticks + 1;
      if current == idleThread {
        idleTicks := idleTicks + 1;
      } else {
        kernelTicks := kernelTicks + 1;
      }
      threadTicks := threadTicks + 1;
      if threadTicks >= TimeSlice {
        yieldOnReturn := true;
      }
    }

    /**
     * thread_exit: the running thread leaves all_list, becomes dying and
     * never runs again; unless it is the initial thread its page is freed
     * by the thread switched to.
     */
    method Exit()
      requires Valid() && current != idleThread
      modifies this`allList, this`readyList, this`current, this`threads, this`threadTicks, this`freed
      ensures Valid()
      ensures allList == Without(old(allList), old(current))
      ensures current != old(current) && threadTicks == 0
      ensures NextChosen(old(readyList), readyList, current, idleThread, old(threads))
      ensures var dying := old(threads)[old(current) := old(threads)[old(current)].(status := Dying)];
              var running := dying[current := dying[current].(status := Running)];
              if old(current) != initialThread
              then threads == running - {old(current)} && freed == old(freed) + {old(current)}
              else threads == running && freed == old(freed)
    {
      ExitKeeps(readyList, sleepingList, allList, threads, current, idleThread, initialThread, nextTid, freed);
      allList := Without(allList, current);
      threads := threads[current := threads[current].(status := Dying)];
      ghost var dying := threads;
      Schedule();
      SamePrioritiesSameChoice(old(readyList), readyList, current, idleThread, dying, old(threads));
      NextChosenIsMax(old(readyList), readyList, current, idleThread, old(threads));
    }

    /**
     * thread_create with the page palloc_get_page returned (None when it
     * failed): a new blocked thread with the next tid joins all_list, is
     * unblocked, and the creator yields if it no longer has the highest
     * priority.
     */
    method CreateThread(priority: Int32, page: Option<ThreadRef>) returns (tid: int)
      requires Valid() && PriMin <= priority <= PriMax
      requires page.Some? ==> page.value !in threads
      modifies this`nextTid, this`allList, this`threads, this`freed, this`readyList, this`current, this`threadTicks
      ensures Valid()
      ensures page.None? ==> tid == TidError && nextTid == old(nextTid) && allList == old(allList) &&
                             threads == old(threads) && readyList == old(readyList) && current == old(current) &&
                             freed == old(freed) && threadTicks == old(threadTicks)
      ensures page.Some? ==> tid == old(nextTid) && nextTid == tid + 1 &&
                             allList == old(allList) + [page.value] && freed == old(freed) - {page.value}
      ensures page.Some? ==> page.value in threads && threads[page.value].tid == tid &&
                             threads[page.value].priority == InitThread(tid, priority, mlfqs).priority
      ensures page.Some? ==>
                (current != old(current) <==>
                   old(threads)[old(current)].priority < InitThread(tid, priority, mlfqs).priority ||
                   (old(readyList) != [] && old(threads)[old(current)].priority < MaxPriority(old(readyList), old(threads))))
      ensures page.Some? && current == old(current) ==>
                readyList == old(readyList) + [page.value] &&
                threads == old(threads)[page.value := InitThread(tid, priority, mlfqs).(status := Ready)] &&
                threadTicks == old(threadTicks)
      ensures page.Some? && current != old(current) ==> threadTicks == 0 && current in old(readyList) + [page.value]
      ensures page.Some? && current != old(current) ==>
                var created := old(threads)[page.value := InitThread(tid, priority, mlfqs).(status := Ready)];
                var queued := old(readyList) + [page.value];
                NextChosen(if old(current) != idleThread then queued + [old(current)] else queued, readyList, current, idleThread, created)
      ensures page.Some? && current != old(current) ==>
                var created := old(threads)[page.value := InitThread(tid, priority, mlfqs).(status := Ready)];
                var readied := created[old(current) := created[old(current)].(status := Ready)];
                threads == readied[current := readied[current].(status := Running)]
    {
      if page.None? {
        return TidError;
      }
      tid := CreateOnPage(priority, page.value);
    }

    /** thread_create once palloc_get_page has returned the free page `t`. */
    method CreateOnPage(priority: Int32, t: ThreadRef) returns (tid: int)
      requires Valid() && PriMin <= priority <= PriMax && t !in threads
      modifies this`nextTid, this`allList, this`threads, this`freed, this`readyList, this`current, this`threadTicks
      ensures Valid()
      ensures tid == old(nextTid) && nextTid == tid + 1 && allList == old(allList) + [t] && freed == old(freed) - {t}
      ensures t in threads && threads[t].tid == tid && threads[t].priority == InitThread(tid, priority, mlfqs).priority
      ensures current != old(current) <==>
                old(threads)[old(current)].priority < InitThread(tid, priority, mlfqs).priority ||
                (old(readyList) != [] && old(threads)[old(current)].priority < MaxPriority(old(readyList), old(threads)))
      ensures current == old(current) ==>
                readyList == old(readyList) + [t] && threads == old(threads)[t := InitThread(tid, priority, mlfqs).(status := Ready)] &&
                threadTicks == old(threadTicks)
      ensures current != old(current) ==> threadTicks == 0 && current in old(readyList) + [t]
      ensures current != old(current) ==>
                var created := old(threads)[t := InitThread(tid, priority, mlfqs).(status := Ready)];
                var queued := old(readyList) + [t];
                NextChosen(if old(current) != idleThread then queued + [old(current)] else queued, readyList, current, idleThread, created)
      ensures current != old(current) ==>
                var created := old(threads)[t := InitThread(tid, priority, mlfqs).(status := Ready)];
                var readied := created[old(current) := created[old(current)].(status := Ready)];
                threads == readied[current := readied[current].(status := Running)]
    {
      ghost var ready0, m0 := readyList, threads;
      tid := AddReadyThread(t, priority);
      YieldToNewThread(t, ready0, m0);
    }

    /**
     * The end of thread_create: `t` has just been added to the back of the
     * ready list, which was `ready0` over the table `m0`; the creator yields
     * if `t` or an older ready thread has a higher priority.
     */
    method YieldToNewThread(t: ThreadRef, ghost ready0: seq<ThreadRef>, ghost m0: map<ThreadRef, Thread>)
      requires Valid() && t !in m0 && AllIn(ready0, m0) && current in m0 && current != t
      requires readyList == ready0 + [t] && t in threads && threads == m0[t := threads[t]]
      modifies this`readyList, this`current, this`threads, this`threadTicks, this`freed
      ensures Valid()
      ensures t in threads && threads[t].tid == old(threads)[t].tid && threads[t].priority == old(threads)[t].priority
      ensures current != old(current) <==>
                m0[old(current)].priority < old(threads)[t].priority ||
                (ready0 != [] && m0[old(current)].priority < MaxPriority(ready0, m0))
      ensures current == old(current) ==> readyList == old(readyList) && threads == old(threads) && threadTicks == old(threadTicks)
      ensures freed == old(freed)
      ensures current != old(current) ==>
                threadTicks == 0 && current in old(readyList) &&
                old(threads)[current].priority == MaxPriority(old(readyList), old(threads))
      ensures current != old(current) ==>
                NextChosen(if old(current) != idleThread then old(readyList) + [old(current)] else old(readyList),
                           readyList, current, idleThread, old(threads))
      ensures current != old(current) ==>
                var readied := old(threads)[old(current) := old(threads)[old(current)].(status := Ready)];
                threads == readied[current := readied[current].(status := Running)]
    {
      ghost var m1, cur := threads, current;
      CreatedMaxPriority(ready0, m0, t, m1[t]);
      ghost var yielded := YieldForHigherPriority();
      if yielded {
        assert threads[t] == if t == current then m1[t].(status := Running) else m1[t];
      }
    }

    /**
     * init_thread, allocate_tid and thread_unblock on the free page `t`: a
     * record with the next tid joins all_list and the back of the ready list.
     */
    method AddReadyThread(t: ThreadRef, priority: Int32) returns (tid: int)
      requires Valid() && t !in threads && PriMin <= priority <= PriMax
      modifies this`threads, this`allList, this`freed, this`nextTid, this`readyList
      ensures Valid()
      ensures tid == old(nextTid) && nextTid == tid + 1
      ensures threads == old(threads)[t := InitThread(tid, priority, mlfqs).(status := Ready)]
      ensures allList == old(allList) + [t] && freed == old(freed) - {t} && readyList == old(readyList) + [t]
      ensures current != t
    {
      tid := AddBlockedThread(t, priority);
      Unblock(t);
    }

    /**
     * init_thread and allocate_tid on the free page `t`: a blocked record
     * with the next tid joins all_list.
     */
    method AddBlockedThread(t: ThreadRef, priority: Int32) returns (tid: int)
      requires Valid() && t !in threads && PriMin <= priority <= PriMax
      modifies this`threads, this`allList, this`freed, this`nextTid
      ensures Valid()
      ensures tid == old(nextTid) && nextTid == tid + 1
      ensures threads == old(threads)[t := InitThread(tid, priority, mlfqs)]
      ensures allList == old(allList) + [t] && freed == old(freed) - {t}
      ensures threads[t].status == Blocked && t != idleThread && t != current && t !in sleepingList
    {
      var rec := InitThread(nextTid, priority, mlfqs);
      CreateKeeps(readyList, sleepingList, allList, threads, current, idleThread, initialThread, nextTid, freed, t, rec);
      threads := threads[t := rec];
      allList := allList + [t];
      freed := freed - {t};
      tid := AllocateTid();
    }

    /** thread_get_load_avg: 100 times the load average, rounded down. */
    method GetLoadAvg() returns (r: Int32)
      requires InInt32(loadAvg * 100)
      ensures r * One <= 100 * loadAvg < r * One + One
    {
      r := Hundredfold(loadAvg);
    }

    /** thread_get_recent_cpu: 100 times the running thread's recent_cpu, rounded down. */
    method GetRecentCpu() returns (r: Int32)
      requires Valid() && InInt32(threads[current].recentCpu * 100)
      ensures r * One <= 100 * threads[current].recentCpu < r * One + One
    {
      r := Hundredfold(threads[current].recentCpu);
    }
  }
}
