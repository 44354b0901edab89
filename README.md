# Pintos thread scheduler and 17.14 fixed-point arithmetic, in Dafny

This project models two parts of the Pintos kernel's thread system, as
extended with priority scheduling and the multilevel feedback queue scheduler
(MLFQS):

- `threads/fpr_arith.h`, the 17.14 fixed-point reals (`FPReal`): an int
  whose low 14 bits are the fraction. Each header function is a pure Dafny
  function over unbounded integers. Its preconditions are exactly the cases
  where the C expression does not overflow. `>> 14` is floor division by
  2^14. C's `/` truncates toward zero (`CDiv`). `<< 14` is multiplication by 2^14.
- `threads/thread.c`, the scheduler state machine. It is the class
  `Threads.Scheduler`, whose fields are the globals of thread.c:
  - the ready, sleeping and all-threads lists;
  - the thread records, indexed by the page that holds them;
  - the running, idle and initial threads;
  - the tick statistics and the tid counter;
  - `load_avg`.

  Each operation of thread.c is a method that changes those fields. Its
  contract gives the new state in terms of the old state and of pure
  specification functions in `ThreadModel`. The lemmas prove what the
  code promises about those functions: which thread runs next, who wakes,
  and how priority, recent_cpu and load_avg evolve.
- `SchedulerInvariants` states, on plain values, what the lists and records
  keep true of each other:
  - the ready list holds exactly the READY threads other than the idle one;
  - a sleeper is BLOCKED;
  - all_list holds every thread that is not DYING;
  - tids lie below the next tid, and freed pages hold no thread;
  - exactly the current thread runs.

  Each scheduler step has a lemma showing that it keeps these facts.
  `Scheduler.Valid()` bundles them.
  - The constructor `Start` establishes `Valid()`.
  - Every public step requires `Valid()` and re-establishes it: Unblock,
    Block, Sleep, CheckSleepingThreads, Yield, YieldForHigherPriority,
    SetPriority, SetNice, the recalculation sweeps, MlfqsTickStep, Tick,
    Exit and CreateThread, with their helpers.
  - The read-only GetByTid and GetRecentCpu require it.
  - The context-switch helpers work on weaker states:
    - NextThreadToRun goes from `ListsOk({})` to `ListsOk({next})`;
    - FreePage keeps `ListsOk({})`, `OneRunning` and `DyingOnly`;
    - Schedule starts from `Descheduled()` and ScheduleTail from
      `Switched(prev)`; both end in `Valid()`.
  - AllocateTid, CountTick, RecalculateLoadAvg and GetLoadAvg touch only
    counters and need none of it.

Files:
- `fpr_arith.dfy`: module `FprArith`;
- `thread_model.dfy`: module `ThreadModel`, which holds the thread records, the constants, the choice of the next thread, the split of the sleeping list and the MLFQS formulas;
- `scheduler_invariants.dfy`: module `SchedulerInvariants`;
- `scheduler.dfy`: module `Threads`, which holds the class `Scheduler`.

## Model

| member | source | states |
|---|---|---|
| FprArith.CDiv | pintos0/pintos-env/pintos/threads/fpr_arith.h:113-115 | C division: the remainder is smaller than the divisor in magnitude and has the dividend's sign (with CDivUnique, this determines the quotient) |
| FprArith.CDivUnique | pintos0/pintos-env/pintos/threads/fpr_arith.h:113-115 | any quotient whose remainder meets C's rules is CDiv's |
| FprArith.FprToInt | pintos0/pintos-env/pintos/threads/fpr_arith.h:76-78 | FPR_TO_INT is the floor: r*2^14 <= x < (r+1)*2^14 |
| FprArith.IntToFpr | pintos0/pintos-env/pintos/threads/fpr_arith.h:82-84 | INT_TO_FPR followed by FPR_TO_INT gives the int back |
| FprArith.FprAddFpr | pintos0/pintos-env/pintos/threads/fpr_arith.h:95-97 | same-scale addition; SubUndoesAdd and AddIntIsAddFpr give its properties |
| FprArith.FprSubFpr | pintos0/pintos-env/pintos/threads/fpr_arith.h:101-103 | same-scale subtraction; SubUndoesAdd shows it inverts FprAddFpr |
| FprArith.FprMulInt | pintos0/pintos-env/pintos/threads/fpr_arith.h:107-109 | multiplication by an int keeps the scale; MulIntOfInt and DivIntUndoesMulInt give its properties |
| FprArith.FprDivInt | pintos0/pintos-env/pintos/threads/fpr_arith.h:113-115 | C division by an int, truncating toward zero; DivIntTruncatesTowardZero and DivIntVersusShift give its rounding |
| FprArith.FprAddInt | pintos0/pintos-env/pintos/threads/fpr_arith.h:119-121 | adds the shifted int; AddIntIsAddFpr ties it to FprAddFpr |
| FprArith.FprSubInt | pintos0/pintos-env/pintos/threads/fpr_arith.h:125-127 | subtracts the shifted int; SubIntIsSubFpr and SubIntUndoesAddInt give its properties |
| FprArith.FprMulFpr | pintos0/pintos-env/pintos/threads/fpr_arith.h:131-136 | the product shifted right by 14 bits (floor), which must fit an int; MulFprByOne and MulFprOfInts give its properties |
| FprArith.FprDivFpr | pintos0/pintos-env/pintos/threads/fpr_arith.h:140-145 | the dividend shifted left by 14 bits, divided with truncation; IntDivIntIsDivFpr ties it to IntDivInt |
| FprArith.IntDivInt | pintos0/pintos-env/pintos/threads/fpr_arith.h:149-154 | the quotient of two ints as an FPReal, truncated; IntDivIntIsDivFpr and LoadAvgFromZero give its properties |
| FprArith.FprInc | pintos0/pintos-env/pintos/threads/fpr_arith.h:88-91 | FPR_INC raises the integer part by exactly one and equals FPR_ADD_INT(x, 1) |
| FprArith.ToIntOfIntToFpr | pintos0/pintos-env/pintos/threads/fpr_arith.h:76-84 | round trip FPR_TO_INT(INT_TO_FPR(i)) == i |
| FprArith.IntToFprInjective | pintos0/pintos-env/pintos/threads/fpr_arith.h:82-84 | distinct ints give distinct FPReals |
| FprArith.ToIntRoundsDown | pintos0/pintos-env/pintos/threads/fpr_arith.h:76-78 | for a negative value with a fraction, FPR_TO_INT is one below the truncating C quotient x / 2^14 |
| FprArith.ToIntOfNonNegative | pintos0/pintos-env/pintos/threads/fpr_arith.h:76-78 | for non-negative values the floor and truncating roundings agree |
| FprArith.IncAddsOne | pintos0/pintos-env/pintos/threads/fpr_arith.h:88-91 | FPR_INC adds exactly INT_TO_FPR(1) |
| FprArith.AddIntIsAddFpr | pintos0/pintos-env/pintos/threads/fpr_arith.h:119-121 | FPR_ADD_INT(a, b) == FPR_ADD_FPR(a, INT_TO_FPR(b)) |
| FprArith.SubIntIsSubFpr | pintos0/pintos-env/pintos/threads/fpr_arith.h:125-127 | FPR_SUB_INT(a, b) == FPR_SUB_FPR(a, INT_TO_FPR(b)) |
| FprArith.SubUndoesAdd | pintos0/pintos-env/pintos/threads/fpr_arith.h:95-103 | FPR_SUB_FPR undoes FPR_ADD_FPR |
| FprArith.SubIntUndoesAddInt | pintos0/pintos-env/pintos/threads/fpr_arith.h:119-127 | FPR_SUB_INT undoes FPR_ADD_INT |
| FprArith.MulIntOfInt | pintos0/pintos-env/pintos/threads/fpr_arith.h:107-109 | FPR_MUL_INT keeps the scale: INT_TO_FPR(a) * b == INT_TO_FPR(a*b) |
| FprArith.MulFprByOne | pintos0/pintos-env/pintos/threads/fpr_arith.h:131-136 | FPR_MUL_FPR(x, INT_TO_FPR(1)) == x, with no overflow for any x |
| FprArith.MulFprOfInts | pintos0/pintos-env/pintos/threads/fpr_arith.h:131-136 | FPR_MUL_FPR of two converted ints is the converted product |
| FprArith.ToIntOfMulFprOfInts | pintos0/pintos-env/pintos/threads/fpr_arith.h:131-136 | FPR_TO_INT of FPR_MUL_FPR of two converted ints is the integer product |
| FprArith.IntDivIntIsDivFpr | pintos0/pintos-env/pintos/threads/fpr_arith.h:140-154 | INT_DIV_INT(a, b) == FPR_DIV_FPR(INT_TO_FPR(a), INT_TO_FPR(b)) |
| FprArith.DivIntTruncatesTowardZero | pintos0/pintos-env/pintos/threads/fpr_arith.h:113-115 | FPR_DIV_INT has magnitude abs(a) / abs(b) and the sign of the exact quotient |
| FprArith.DivIntVersusShift | pintos0/pintos-env/pintos/threads/fpr_arith.h:113-115 | FPR_DIV_INT(-1, 4) == 0 while FPR_TO_INT(-1) == -1 |
| FprArith.DivIntUndoesMulInt | pintos0/pintos-env/pintos/threads/fpr_arith.h:107-115 | FPR_DIV_INT(FPR_MUL_INT(a, b), b) == a |
| FprArith.Hundredfold | pintos0/pintos-env/pintos/threads/thread.c:570-582 | the value returned is 100*x rounded down to an integer |
| ThreadModel.Without | pintos0/pintos-env/pintos/threads/thread.c:413-414 | list_remove: exactly the other members remain, and a list without repetitions stays so |
| ThreadModel.CmpPriority | pintos0/pintos-env/pintos/threads/thread.c:585-593 | the order handed to list_max: strictly lower priority |
| ThreadModel.NextChosen | pintos0/pintos-env/pintos/threads/thread.c:725-736 | the relation between the ready list before and after next_thread_to_run and the thread returned; NextChosenIsMax states what it implies |
| ThreadModel.MaxPriority | pintos0/pintos-env/pintos/threads/thread.c:585-593 | the largest priority of a non-empty list is attained by a member and bounds all members |
| ThreadModel.ListMax | pintos0/pintos-env/pintos/threads/thread.c:585-593 | list_max under thread_cmp_priority: returns an index whose priority no member exceeds, equal to MaxPriority |
| ThreadModel.NextChosenIsMax | pintos0/pintos-env/pintos/threads/thread.c:725-736 | next_thread_to_run returns idle iff the ready list is empty; otherwise a member of maximal priority, and the list loses exactly that one thread (multiset) |
| ThreadModel.RemoveAtMultiset | pintos0/pintos-env/pintos/threads/thread.c:731-732 | list_remove of the chosen element takes exactly it out of the multiset |
| ThreadModel.PicksHighestOfThree | pintos0/pintos-env/pintos/threads/thread.c:725-736 | with priorities 5, 9 and 3 ready, the thread of priority 9 runs and the other two stay in order |
| ThreadModel.SamePrioritiesSameChoice | pintos0/pintos-env/pintos/threads/thread.c:585-593 | the choice depends only on the priorities of the ready threads |
| ThreadModel.MaxPriorityAppend | pintos0/pintos-env/pintos/threads/thread.c:431-432 | the largest priority after pushing a thread to the back of the ready list |
| ThreadModel.MaxPrioritySame | pintos0/pintos-env/pintos/threads/thread.c:531-539 | changing only the running thread, which is not ready, leaves the largest ready priority as it was |
| ThreadModel.CreatedMaxPriority | pintos0/pintos-env/pintos/threads/thread.c:318-322 | the largest ready priority once the new thread is on the ready list |
| ThreadModel.SplitSleepers | pintos0/pintos-env/pintos/threads/thread.c:171-192 | one pass over the sleeping list yields the sleepers that stay (Late) and those that wake (Due), each in list order |
| ThreadModel.DueMembers | pintos0/pintos-env/pintos/threads/thread.c:182-187 | exactly the sleepers with now >= wakeup_at_tick are woken |
| ThreadModel.LateMembers | pintos0/pintos-env/pintos/threads/thread.c:182-187 | exactly the other sleepers stay asleep |
| ThreadModel.DueLatePartition | pintos0/pintos-env/pintos/threads/thread.c:171-192 | woken and kept sleepers together are the old sleeping list, as a multiset |
| ThreadModel.DueLateDistinct | pintos0/pintos-env/pintos/threads/thread.c:171-192 | with no repetitions in the sleeping list, there are none among the woken or the kept |
| ThreadModel.Due | pintos0/pintos-env/pintos/threads/thread.c:171-192 | the sleepers that wake at tick now, in list order; DueMembers and DueLatePartition give its properties |
| ThreadModel.Late | pintos0/pintos-env/pintos/threads/thread.c:171-192 | the sleepers that stay asleep, in list order; LateMembers and DueLatePartition give its properties |
| ThreadModel.RecalculatedPriority | pintos0/pintos-env/pintos/threads/thread.c:510-513 | PRI_MAX - FPR_TO_INT(FPR_DIV_INT(recent_cpu, 4)) - 2*nice, unclamped; PriorityOfNonNegativeRecentCpu, PriorityFallsWithNice and PriorityNotClamped give its properties |
| ThreadModel.PriorityOfNonNegativeRecentCpu | pintos0/pintos-env/pintos/threads/thread.c:510-513 | for recent_cpu >= 0, priority = PRI_MAX - floor(recent_cpu / 4) - 2*nice |
| ThreadModel.PriorityFallsWithNice | pintos0/pintos-env/pintos/threads/thread.c:510-513 | a larger nice gives a strictly smaller priority |
| ThreadModel.PriorityNotClamped | pintos0/pintos-env/pintos/threads/thread.c:510-513 | the formula is not clamped: nice -20 gives PRI_MAX + 40, nice 40 gives less than PRI_MIN |
| ThreadModel.InitThread | pintos0/pintos-env/pintos/threads/thread.c:668-704 | init_thread: BLOCKED, given tid, zero wake-up tick, nice 0, recent_cpu 0; priority PRI_MAX under MLFQS, else the given one |
| ThreadModel.ReadyOrRunning | pintos0/pintos-env/pintos/threads/thread.c:558-564 | the count is the ready list's length, plus one exactly when the idle thread is not the one running; SchedulerInvariants.ReadyOrRunningCount shows that this is the number of threads other than idle that are READY or RUNNING |
| ThreadModel.DistinctCard | pintos0/pintos-env/pintos/threads/thread.c:559-564 | a list without repeats (such as ready_list) has as many elements as it names threads, so list_size counts threads |
| SchedulerInvariants.ReadyOrRunningCount | pintos0/pintos-env/pintos/threads/thread.c:555-566 | in every settled state, the count load_avg is fed equals the number of threads other than the idle thread whose status is READY or RUNNING |
| ThreadModel.NewLoadAvg | pintos0/pintos-env/pintos/threads/thread.c:555-566 | (59/60)*load_avg + (1/60)*ready_or_running in FPReal arithmetic; LoadAvgFromZero and LoadAvgNonNegative give its properties |
| ThreadModel.LoadAvgFromZero | pintos0/pintos-env/pintos/threads/thread.c:555-566 | from load_avg 0 with one running thread and nothing ready, the new load_avg is INT_DIV_INT(1, 60) == 273 |
| ThreadModel.LoadAvgNonNegative | pintos0/pintos-env/pintos/threads/thread.c:555-566 | load_avg never becomes negative |
| ThreadModel.DecayCoefficient | pintos0/pintos-env/pintos/threads/thread.c:492-494 | (2*load_avg)/(2*load_avg + 1) as an FPReal; DecayCoefficientBelowOne bounds it |
| ThreadModel.RecalculatedRecentCpu | pintos0/pintos-env/pintos/threads/thread.c:490-497 | the coefficient times recent_cpu, plus nice; RecentCpuAtZeroLoad and RecentCpuDecays give its properties |
| ThreadModel.DecayCoefficientBelowOne | pintos0/pintos-env/pintos/threads/thread.c:490-495 | for load_avg >= 0, 0 <= (2*load_avg)/(2*load_avg + 1) < 1 |
| ThreadModel.RecentCpuAtZeroLoad | pintos0/pintos-env/pintos/threads/thread.c:490-497 | at load_avg 0, recent_cpu becomes INT_TO_FPR(nice) |
| ThreadModel.RecentCpuDecays | pintos0/pintos-env/pintos/threads/thread.c:490-497 | for non-negative inputs, nice <= new recent_cpu <= old recent_cpu + nice |
| ThreadModel.PrioritiesRecalculated | pintos0/pintos-env/pintos/threads/thread.c:518-523 | the sweep changes only priorities, on the same set of threads |
| ThreadModel.RecentCpusRecalculated | pintos0/pintos-env/pintos/threads/thread.c:501-506 | the sweep changes only recent_cpu values, and only of threads on all_list |
| ThreadModel.PrioritiesRecalculatedAt | pintos0/pintos-env/pintos/threads/thread.c:459-471 | after the sweep each thread of all_list has the priority of its own recent_cpu and nice; the others are untouched |
| ThreadModel.RecentCpusRecalculatedAt | pintos0/pintos-env/pintos/threads/thread.c:459-471 | after the sweep each thread of all_list has decayed its recent_cpu once; the others are untouched |
| ThreadModel.SweepPriorities | pintos0/pintos-env/pintos/threads/thread.c:459-471 | the thread_foreach loop with thread_recalculate_priority computes PrioritiesRecalculated |
| ThreadModel.SweepRecentCpus | pintos0/pintos-env/pintos/threads/thread.c:459-471 | the thread_foreach loop with thread_recalculate_recent_cpu computes RecentCpusRecalculated |
| ThreadModel.Woken | pintos0/pintos-env/pintos/threads/thread.c:171-192 | waking touches only the woken threads, on the same set of threads |
| ThreadModel.WokenAt | pintos0/pintos-env/pintos/threads/thread.c:185-186 | a woken sleeper is READY and otherwise unchanged |
| ThreadModel.Charged | pintos0/pintos-env/pintos/threads/thread.c:216 | the running thread, unless idle, gains exactly One (2^14) of recent_cpu, so its integer part rises by one; every other thread and every other field is unchanged, and nothing changes when the idle thread runs |
| ThreadModel.MlfqsTick | pintos0/pintos-env/pintos/threads/thread.c:215-226 | the MLFQS block keeps the set of threads and every field of each record except priority and recent_cpu (status, tid, nice, wake-up tick), and changes load_avg only once a second |
| ThreadModel.TickResult | pintos0/pintos-env/pintos/threads/thread.c:200-234 | the table, load_avg, ready and sleeping lists after thread_tick: the MLFQS block under -o mlfqs, then the due sleepers woken in order; Tick is proved to produce it |
| SchedulerInvariants.ShapeKeeps | pintos0/pintos-env/pintos/threads/thread.c:509-523 | changing only priorities, nice or recent_cpu keeps every invariant |
| SchedulerInvariants.UnblockKeeps | pintos0/pintos-env/pintos/threads/thread.c:352-364 | thread_unblock keeps every invariant |
| SchedulerInvariants.PickKeeps | pintos0/pintos-env/pintos/threads/thread.c:725-736 | next_thread_to_run returns idle or a READY thread and keeps the lists consistent |
| SchedulerInvariants.RunKeeps | pintos0/pintos-env/pintos/threads/thread.c:755-766 | marking the thread switched to RUNNING re-establishes "exactly one runs" |
| SchedulerInvariants.FreeKeeps | pintos0/pintos-env/pintos/threads/thread.c:777-781 | freeing a dying thread's page keeps every invariant |
| SchedulerInvariants.BlockKeeps | pintos0/pintos-env/pintos/threads/thread.c:157-166 | thread_block and thread_sleep leave no thread running and keep the lists consistent |
| SchedulerInvariants.YieldKeeps | pintos0/pintos-env/pintos/threads/thread.c:423-436 | thread_yield leaves no thread running and the idle thread off the ready list |
| SchedulerInvariants.ExitKeeps | pintos0/pintos-env/pintos/threads/thread.c:402-418 | thread_exit takes the thread off all_list before it is DYING |
| SchedulerInvariants.CreateKeeps | pintos0/pintos-env/pintos/threads/thread.c:668-704 | a new blocked record with the next tid, added to all_list, keeps every invariant |
| SchedulerInvariants.SplitKeeps | pintos0/pintos-env/pintos/threads/thread.c:171-192 | the woken sleepers are BLOCKED, not idle and off the sleeping list |
| Threads.Scheduler.Start | pintos0/pintos-env/pintos/threads/thread.c:121-152 | thread_init + thread_start: initial thread RUNNING with tid 1, idle thread BLOCKED with tid 2 and PRI_MIN (PRI_MAX under MLFQS, where both threads start at PRI_MAX), empty ready and sleeping lists |
| Threads.Scheduler.AllocateTid | pintos0/pintos-env/pintos/threads/thread.c:809-819 | tids are handed out consecutively |
| Threads.Scheduler.GetByTid | pintos0/pintos-env/pintos/threads/thread.c:92-105 | returns the first thread of all_list with the tid, and none exactly when no thread has it |
| Threads.Scheduler.Unblock | pintos0/pintos-env/pintos/threads/thread.c:352-364 | appends to the ready list, sets READY, no switch (current unchanged) |
| Threads.Scheduler.NextThreadToRun | pintos0/pintos-env/pintos/threads/thread.c:725-736 | the choice is NextChosen: idle on an empty list, else a highest-priority thread removed |
| Threads.Scheduler.ScheduleTail | pintos0/pintos-env/pintos/threads/thread.c:755-782 | marks current RUNNING, resets thread_ticks, frees prev only if it is DYING and not the initial thread |
| Threads.Scheduler.FreePage | pintos0/pintos-env/pintos/threads/thread.c:777-781 | the dying page leaves the table and joins the freed pages |
| Threads.Scheduler.Schedule | pintos0/pintos-env/pintos/threads/thread.c:792-805 | switches to the NextChosen thread; a dying previous thread other than the initial one is freed and is not the new one |
| Threads.Scheduler.Block | pintos0/pintos-env/pintos/threads/thread.c:334-341 | the current thread becomes BLOCKED and the scheduler switches |
| Threads.Scheduler.Sleep | pintos0/pintos-env/pintos/threads/thread.c:157-166 | records the wake-up tick, appends to sleeping_list, blocks; another thread runs |
| Threads.Scheduler.CheckSleepingThreads | pintos0/pintos-env/pintos/threads/thread.c:171-192 | exactly the due sleepers wake, in list order, at the back of the ready list; the others stay asleep in order |
| Threads.Scheduler.Yield | pintos0/pintos-env/pintos/threads/thread.c:423-436 | the current thread becomes READY and is queued unless it is idle; the idle thread is never on the ready list |
| Threads.Scheduler.YieldForHigherPriority | pintos0/pintos-env/pintos/threads/thread.c:441-454 | yields iff the ready list is non-empty and its largest priority is strictly higher; after a yield a highest-priority ready thread runs |
| Threads.Scheduler.YieldIfOutranked | pintos0/pintos-env/pintos/threads/thread.c:444-451 | the same test on a non-empty ready list |
| Threads.Scheduler.SetPriority | pintos0/pintos-env/pintos/threads/thread.c:475-479 | the running thread takes the new priority; it yields iff a ready thread has a strictly higher one. Without a yield the table is the old one with the new priority and nothing else changes; after a yield the table is that one with the caller READY and the NextChosen thread RUNNING, thread_ticks is 0 and no page is freed |
| Threads.Scheduler.SetNice | pintos0/pintos-env/pintos/threads/thread.c:529-544 | the running thread takes the new nice and the priority recalculated from it; it yields iff that priority is below the largest ready priority. In both branches the table is the one with the new nice and priority, with, after a yield, the caller READY and the NextChosen thread RUNNING; thread_ticks and the freed pages are given in both branches |
| Threads.Scheduler.SetOwnNice | pintos0/pintos-env/pintos/threads/thread.c:531-533 | sets nice and the priority from the formula; the largest ready priority is unchanged |
| Threads.Scheduler.RecalculateLoadAvg | pintos0/pintos-env/pintos/threads/thread.c:555-566 | load_avg becomes NewLoadAvg(load_avg, ready count, idle running); by SchedulerInvariants.ReadyOrRunningCount, the count it uses is the number of READY or RUNNING threads other than idle |
| Threads.Scheduler.RecalculatePriorityAllThreads | pintos0/pintos-env/pintos/threads/thread.c:518-523 | the table becomes PrioritiesRecalculated, invariants kept |
| Threads.Scheduler.RecalculateRecentCpuAllThreads | pintos0/pintos-env/pintos/threads/thread.c:501-506 | the table becomes RecentCpusRecalculated, invariants kept |
| Threads.Scheduler.MlfqsTickStep | pintos0/pintos-env/pintos/threads/thread.c:215-226 | load_avg and the table become MlfqsTick of the old state |
| Threads.Scheduler.Tick | pintos0/pintos-env/pintos/threads/thread.c:200-234 | counts the tick as idle or kernel time, thread_ticks + 1, requests a yield once thread_ticks >= TIME_SLICE, and gives the table and lists as TickResult |
| Threads.Scheduler.TickThreads | pintos0/pintos-env/pintos/threads/thread.c:215-233 | the MLFQS block, then check_sleeping_threads |
| Threads.Scheduler.CountTick | pintos0/pintos-env/pintos/threads/thread.c:204-230 | the statistics and the time-slice counter |
| Threads.Scheduler.Exit | pintos0/pintos-env/pintos/threads/thread.c:402-418 | removes the thread from all_list, marks it DYING, switches away for good; its page is freed unless it is the initial thread |
| Threads.Scheduler.CreateThread | pintos0/pintos-env/pintos/threads/thread.c:260-325 | TID_ERROR and no change without a page; otherwise the next tid and a new thread on all_list, and the creator yields iff the new thread or an older ready thread outranks it. Without a yield the new thread is READY at the back of the ready list; after a yield the NextChosen thread of the old ready list plus the new thread plus the creator runs, the creator is READY and thread_ticks is 0 |
| Threads.Scheduler.CreateOnPage | pintos0/pintos-env/pintos/threads/thread.c:278-324 | thread_create once a page is available: the same outcome as CreateThread with a page, in both branches |
| Threads.Scheduler.YieldToNewThread | pintos0/pintos-env/pintos/threads/thread.c:322 | the creator yields iff the new thread or an older ready thread outranks it; after a yield a highest-priority thread of the ready list (the new thread included) runs, chosen as NextChosen, with the creator READY |
| Threads.Scheduler.AddReadyThread | pintos0/pintos-env/pintos/threads/thread.c:278-318 | init_thread, allocate_tid and thread_unblock: the new thread is READY at the back of the ready list |
| Threads.Scheduler.AddBlockedThread | pintos0/pintos-env/pintos/threads/thread.c:278-279 | init_thread and allocate_tid: a BLOCKED record with the next tid on all_list |
| Threads.Scheduler.GetLoadAvg | pintos0/pintos-env/pintos/threads/thread.c:570-573 | returns 100 * load_avg rounded down |
| Threads.Scheduler.GetRecentCpu | pintos0/pintos-env/pintos/threads/thread.c:577-582 | returns 100 * the running thread's recent_cpu rounded down |

## Left out

- Context switching (`switch_threads`, `switch_entry`, stack frames built by `alloc_frame`, `kernel_thread`, `running_thread`): a switch is the assignment of the chosen thread to `current`.
- Interrupt levels and `intr_context`, `tid_lock` and the semaphore of `thread_start`: one processor, with interrupts off inside each operation.
- The `USERPROG` parts of thread.c (`user_ticks`, `process_activate`, `process_exit`, exit status and parent fields): the model is the kernel without user programs.
- Thread names, the `magic` field, `thread_print_stats`, `idle`, `thread_current`'s assertions, `thread_name`, `thread_tid`, `thread_get_priority`, `thread_get_nice`: these are text, sanity checks or plain field reads.
- `userprog/syscall.c` is not part of this model.
- `lib/kernel/list.c` is not part of this model: lists are sequences and `list_push_back` appends. `list_remove` is `ThreadModel.RemoveAt` at an index, or `ThreadModel.Without`, which drops every occurrence of the thread; on all_list, which has no repetitions (`Distinct`, part of `Scheduler.Valid`), that is the one element list_remove takes out.
- `threads/thread.h` and `devices/timer.h` are not part of this model. PRI_MIN 0, PRI_DEFAULT 31, PRI_MAX 63, NICE_DEFAULT 0 and TIMER_FREQ 100 are Pintos' standard values; TIME_SLICE 4 is the one in thread.c.
- `timer_ticks()` is the parameter `now` of `Tick` and `CheckSleepingThreads`; `palloc_get_page` is the parameter `page` of `CreateThread`.
- FprArith: 32-bit wrap-around and the 64-bit intermediates are not modelled. Every operation instead requires that its C expression does not overflow, and `<< 14` is multiplication by 2^14. The same holds for the MLFQS formulas (`PriorityFits`, `LoadAvgFits`, `RecentCpuFits`, `MlfqsTickFits`).
- Threads.Scheduler.SetNice requires a non-empty ready list. thread_set_nice calls `list_max` on the ready list without checking that it is empty, and on an empty list that reads the list's tail sentinel as if it were a thread.
- Threads.Scheduler.Unblock requires that the thread is not the idle thread and not on the sleeping list. thread.c unblocks only such threads; the idle thread's first block happens inside the constructor.
- Threads.Scheduler.Sleep and Threads.Scheduler.Exit require that the running thread is not the idle thread, which never sleeps or exits.
- Threads.Scheduler.CheckSleepingThreads splits the sleeping list in one pass and then unblocks the due threads in list order. thread.c interleaves the removal and the unblocking in a single loop; the resulting lists and records are the same.
- Threads.Scheduler.Start gives the state after `thread_init` and `thread_start` together: the idle thread has run once and blocked.
- Threads.Scheduler.Tick advances the time-slice counter together with the statistics, before the MLFQS block rather than after it. That block neither reads nor writes the counters.
- Threads.Scheduler.GetByTid: uniqueness of tids is not proved, so the contract speaks of the first thread of all_list with that tid.
- Threads.Scheduler.RecalculatePriorityAllThreads and RecalculateRecentCpuAllThreads compute the new table in a loop over all_list and then store it, rather than writing each record in place.
- The priority formula is not clamped to [PRI_MIN, PRI_MAX], as in thread.c (`ThreadModel.PriorityNotClamped`).
- The counters `ticks`, `idleTicks`, `kernelTicks` (`long long` in thread.c), `threadTicks` (`unsigned`) and `nextTid` (`int`) are unbounded integers. Their wrap-around is not modelled; a wrapped `nextTid` would break the invariant that every tid lies below it.
- `thread_create`'s `function`/`aux` arguments and the thread's stack are not modelled; the new thread is only a record.
