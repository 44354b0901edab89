/**
 * What the lists and thread records of threads/thread.c keep true of each
 * other, stated on plain values, and the scheduler steps that keep it.
 * The Scheduler class applies these predicates to its fields.
 */
module SchedulerInvariants {
  import opened FprArith
  import opened ThreadModel

  /** The three lists name known threads, each at most once. */
  predicate Shaped(ready: seq<ThreadRef>, sleeping: seq<ThreadRef>, all: seq<ThreadRef>,
                   m: map<ThreadRef, Thread>, cur: ThreadRef, idle: ThreadRef, initial: ThreadRef)
  {
    AllIn(ready, m) && Distinct(ready) &&
    AllIn(sleeping, m) && Distinct(sleeping) &&
    AllIn(all, m) && Distinct(all) &&
    cur in m && idle in m && initial in m && idle != initial
  }

  /**
   * The ready list holds exactly the READY threads other than the idle
   * thread and the one just `picked` by next_thread_to_run.
   */
  predicate ReadyOk(ready: seq<ThreadRef>, m: map<ThreadRef, Thread>, idle: ThreadRef, picked: set<ThreadRef>) {
    forall r :: r in m ==> (r in ready <==> m[r].status == Ready && r != idle && r !in picked)
  }

  /** A sleeper is blocked, and the idle thread never sleeps. */
  predicate SleepOk(sleeping: seq<ThreadRef>, m: map<ThreadRef, Thread>, idle: ThreadRef) {
    (forall r :: r in sleeping && r in m ==> m[r].status == Blocked) && idle !in sleeping
  }

  /** all_list holds every thread that has not started to exit; the idle thread never exits. */
  predicate AllOk(all: seq<ThreadRef>, m: map<ThreadRef, Thread>, idle: ThreadRef) {
    (forall r :: r in m ==> (r in all <==> m[r].status != Dying)) &&
    idle in m && m[idle].status != Dying
  }

  /** Tids come from allocate_tid, so they lie below the next one; a freed page holds no thread. */
  predicate TidsOk(m: map<ThreadRef, Thread>, nextTid: int, freed: set<ThreadRef>) {
    (forall r :: r in m ==> 1 <= m[r].tid < nextTid) &&
    freed !! m.Keys
  }

  predicate Consistent(ready: seq<ThreadRef>, sleeping: seq<ThreadRef>, all: seq<ThreadRef>,
                       m: map<ThreadRef, Thread>, cur: ThreadRef, idle: ThreadRef, initial: ThreadRef,
                       nextTid: int, freed: set<ThreadRef>, picked: set<ThreadRef>)
  {
    Shaped(ready, sleeping, all, m, cur, idle, initial) && ReadyOk(ready, m, idle, picked) &&
    SleepOk(sleeping, m, idle) && AllOk(all, m, idle) && TidsOk(m, nextTid, freed)
  }

  /** Exactly `cur` runs. */
  predicate OneRunning(m: map<ThreadRef, Thread>, cur: ThreadRef) {
    cur in m && m[cur].status == Running &&
    forall r :: r in m && r != cur ==> m[r].status != Running
  }

  /** The state between two scheduler calls: the lists agree and exactly `cur` runs. */
  predicate Settled(ready: seq<ThreadRef>, sleeping: seq<ThreadRef>, all: seq<ThreadRef>,
                    m: map<ThreadRef, Thread>, cur: ThreadRef, idle: ThreadRef, initial: ThreadRef,
                    nextTid: int, freed: set<ThreadRef>)
  {
    Consistent(ready, sleeping, all, m, cur, idle, initial, nextTid, freed, {}) &&
    OneRunning(m, cur) && DyingOnly(m, {initial})
  }

  /**
   * The count load_avg is fed: the threads other than idle that are ready
   * or running, which is the ready list plus the running thread unless idle
   * is the one running.
   */
  lemma ReadyOrRunningCount(ready: seq<ThreadRef>, sleeping: seq<ThreadRef>, all: seq<ThreadRef>,
                            m: map<ThreadRef, Thread>, cur: ThreadRef, idle: ThreadRef, initial: ThreadRef,
                            nextTid: int, freed: set<ThreadRef>)
    requires Settled(ready, sleeping, all, m, cur, idle, initial, nextTid, freed)
    ensures ReadyOrRunning(|ready|, cur == idle) ==
            |(set r: ThreadRef | r in m && r != idle && (m[r].status == Ready || m[r].status == Running))|
  {
    QueuedPlusRunning(ready, m, cur, idle);
  }

  /** The counting behind ReadyOrRunningCount, from the facts it needs. */
  lemma QueuedPlusRunning(ready: seq<ThreadRef>, m: map<ThreadRef, Thread>, cur: ThreadRef, idle: ThreadRef)
    requires AllIn(ready, m) && Distinct(ready) && ReadyOk(ready, m, idle, {}) && OneRunning(m, cur)
    ensures ReadyOrRunning(|ready|, cur == idle) ==
            |(set r: ThreadRef | r in m && r != idle && (m[r].status == Ready || m[r].status == Running))|
  {
    var counted := set r: ThreadRef | r in m && r != idle && (m[r].status == Ready || m[r].status == Running);
    var queued := set r: ThreadRef | r in ready;
    DistinctCard(ready);
    if cur == idle {
      assert counted == queued;
    } else {
      assert cur !in queued;
      assert counted == queued + {cur};
    }
  }

  /** No thread runs: the state inside schedule(). */
  predicate NoneRunning(m: map<ThreadRef, Thread>) {
    forall r :: r in m ==> m[r].status != Running
  }

  /** Only the threads in `allowed` may be dying (the others have been freed). */
  predicate DyingOnly(m: map<ThreadRef, Thread>, allowed: set<ThreadRef>) {
    forall r :: r in m && m[r].status == Dying ==> r in allowed
  }

  /** A recalculation of priorities or recent_cpu keeps every invariant. */
  lemma ShapeKeeps(ready: seq<ThreadRef>, sleeping: seq<ThreadRef>, all: seq<ThreadRef>,
                   m1: map<ThreadRef, Thread>, m2: map<ThreadRef, Thread>, cur: ThreadRef, idle: ThreadRef,
                   initial: ThreadRef, nextTid: int, freed: set<ThreadRef>)
    requires SameShape(m1, m2)
    requires Settled(ready, sleeping, all, m1, cur, idle, initial, nextTid, freed)
    ensures Settled(ready, sleeping, all, m2, cur, idle, initial, nextTid, freed)
  {
  }

  /** thread_unblock keeps every invariant. */
  lemma UnblockKeeps(ready: seq<ThreadRef>, sleeping: seq<ThreadRef>, all: seq<ThreadRef>,
                     m: map<ThreadRef, Thread>, cur: ThreadRef, idle: ThreadRef, initial: ThreadRef,
                     nextTid: int, freed: set<ThreadRef>, t: ThreadRef)
    requires Consistent(ready, sleeping, all, m, cur, idle, initial, nextTid, freed, {})
    requires OneRunning(m, cur) && DyingOnly(m, {initial})
    requires t in m && m[t].status == Blocked && t != idle && t !in sleeping
    ensures var m' := m[t := m[t].(status := Ready)];
            Consistent(ready + [t], sleeping, all, m', cur, idle, initial, nextTid, freed, {}) &&
            OneRunning(m', cur) && DyingOnly(m', {initial})
  {
    assert t !in ready;
    assert forall r :: r in ready + [t] <==> r in ready || r == t;
  }

  /** next_thread_to_run takes the picked thread off the ready list and nothing else. */
  lemma PickKeeps(ready: seq<ThreadRef>, after: seq<ThreadRef>, next: ThreadRef, sleeping: seq<ThreadRef>,
                  all: seq<ThreadRef>, m: map<ThreadRef, Thread>, cur: ThreadRef, idle: ThreadRef,
                  initial: ThreadRef, nextTid: int, freed: set<ThreadRef>)
    requires Consistent(ready, sleeping, all, m, cur, idle, initial, nextTid, freed, {})
    requires NextChosen(ready, after, next, idle, m)
    ensures Consistent(after, sleeping, all, m, cur, idle, initial, nextTid, freed, {next})
    ensures next in m && (next == idle || m[next].status == Ready)
  {
    if ready != [] {
      var k :| 0 <= k < |ready| && IsMaxAt(ready, m, k) && ready[k] == next && after == RemoveAt(ready, k);
      RemoveAtMembers(ready, k);
    }
  }

  /** thread_schedule_tail marks the thread switched to as running. */
  lemma RunKeeps(ready: seq<ThreadRef>, sleeping: seq<ThreadRef>, all: seq<ThreadRef>,
                 m: map<ThreadRef, Thread>, cur: ThreadRef, idle: ThreadRef, initial: ThreadRef,
                 nextTid: int, freed: set<ThreadRef>, allowed: set<ThreadRef>)
    requires Consistent(ready, sleeping, all, m, cur, idle, initial, nextTid, freed, {cur})
    requires cur == idle || m[cur].status == Ready
    requires NoneRunning(m) && DyingOnly(m, allowed)
    ensures var m' := m[cur := m[cur].(status := Running)];
            Consistent(ready, sleeping, all, m', cur, idle, initial, nextTid, freed, {}) &&
            OneRunning(m', cur) && DyingOnly(m', allowed)
  {
    assert cur !in ready && cur !in sleeping;
  }

  /** palloc_free_page on a dying thread's page removes its record. */
  lemma FreeKeeps(ready: seq<ThreadRef>, sleeping: seq<ThreadRef>, all: seq<ThreadRef>,
                  m: map<ThreadRef, Thread>, cur: ThreadRef, idle: ThreadRef, initial: ThreadRef,
                  nextTid: int, freed: set<ThreadRef>, p: ThreadRef, allowed: set<ThreadRef>)
    requires Consistent(ready, sleeping, all, m, cur, idle, initial, nextTid, freed, {})
    requires p in m && m[p].status == Dying && p != cur && p != initial
    requires OneRunning(m, cur) && DyingOnly(m, allowed)
    ensures var m' := m - {p};
            Consistent(ready, sleeping, all, m', cur, idle, initial, nextTid, freed + {p}, {}) &&
            OneRunning(m', cur) && DyingOnly(m', allowed - {p})
  {
    assert p !in ready && p !in sleeping && p !in all;
  }

  /**
   * thread_block, and thread_sleep when `asleep`: the running thread gets
   * the blocked record `rec` (and joins the sleeping list).
   */
  lemma BlockKeeps(ready: seq<ThreadRef>, sleeping: seq<ThreadRef>, all: seq<ThreadRef>,
                   m: map<ThreadRef, Thread>, cur: ThreadRef, idle: ThreadRef, initial: ThreadRef,
                   nextTid: int, freed: set<ThreadRef>, rec: Thread, asleep: bool)
    requires Consistent(ready, sleeping, all, m, cur, idle, initial, nextTid, freed, {})
    requires OneRunning(m, cur) && DyingOnly(m, {initial})
    requires rec.status == Blocked && rec.tid == m[cur].tid
    requires asleep ==> cur != idle
    ensures var m' := m[cur := rec];
            var sleeping' := if asleep then sleeping + [cur] else sleeping;
            Consistent(ready, sleeping', all, m', cur, idle, initial, nextTid, freed, {}) &&
            NoneRunning(m') && DyingOnly(m', {initial, cur})
  {
    assert cur !in ready && cur !in sleeping;
    assert forall r :: r in sleeping + [cur] <==> r in sleeping || r == cur;
  }

  /** thread_yield: the running thread becomes ready and, unless idle, joins the ready list. */
  lemma YieldKeeps(ready: seq<ThreadRef>, sleeping: seq<ThreadRef>, all: seq<ThreadRef>,
                   m: map<ThreadRef, Thread>, cur: ThreadRef, idle: ThreadRef, initial: ThreadRef,
                   nextTid: int, freed: set<ThreadRef>)
    requires Consistent(ready, sleeping, all, m, cur, idle, initial, nextTid, freed, {})
    requires OneRunning(m, cur) && DyingOnly(m, {initial})
    ensures var m' := m[cur := m[cur].(status := Ready)];
            var ready' := if cur != idle then ready + [cur] else ready;
            Consistent(ready', sleeping, all, m', cur, idle, initial, nextTid, freed, {}) &&
            NoneRunning(m') && DyingOnly(m', {initial, cur})
  {
    assert cur !in ready && cur !in sleeping;
    assert forall r :: r in ready + [cur] <==> r in ready || r == cur;
  }

  /** thread_exit: the running thread leaves all_list and is dying. */
  lemma ExitKeeps(ready: seq<ThreadRef>, sleeping: seq<ThreadRef>, all: seq<ThreadRef>,
                  m: map<ThreadRef, Thread>, cur: ThreadRef, idle: ThreadRef, initial: ThreadRef,
                  nextTid: int, freed: set<ThreadRef>)
    requires Consistent(ready, sleeping, all, m, cur, idle, initial, nextTid, freed, {})
    requires OneRunning(m, cur) && DyingOnly(m, {initial}) && cur != idle
    ensures var m' := m[cur := m[cur].(status := Dying)];
            Consistent(ready, sleeping, Without(all, cur), m', cur, idle, initial, nextTid, freed, {}) &&
            NoneRunning(m') && DyingOnly(m', {initial, cur})
  {
    assert cur !in ready && cur !in sleeping;
  }

  /** thread_create: a new blocked record with the next tid on a page that holds no thread. */
  lemma CreateKeeps(ready: seq<ThreadRef>, sleeping: seq<ThreadRef>, all: seq<ThreadRef>,
                    m: map<ThreadRef, Thread>, cur: ThreadRef, idle: ThreadRef, initial: ThreadRef,
                    nextTid: int, freed: set<ThreadRef>, page: ThreadRef, rec: Thread)
    requires Consistent(ready, sleeping, all, m, cur, idle, initial, nextTid, freed, {})
    requires OneRunning(m, cur) && DyingOnly(m, {initial})
    requires page !in m && rec.status == Blocked && rec.tid == nextTid
    ensures var m' := m[page := rec];
            Consistent(ready, sleeping, all + [page], m', cur, idle, initial, nextTid + 1, freed - {page}, {}) &&
            OneRunning(m', cur) && DyingOnly(m', {initial})
  {
    assert page !in all;
    assert forall r :: r in all + [page] <==> r in all || r == page;
  }

  /**
   * check_sleeping_threads: keeping only the sleepers not yet due keeps every
   * invariant, and each due one is a blocked thread other than the idle one,
   * off the sleeping list.
   */
  lemma SplitKeeps(ready: seq<ThreadRef>, sleeping: seq<ThreadRef>, all: seq<ThreadRef>,
                   m: map<ThreadRef, Thread>, cur: ThreadRef, idle: ThreadRef, initial: ThreadRef,
                   nextTid: int, freed: set<ThreadRef>, now: int)
    requires Consistent(ready, sleeping, all, m, cur, idle, initial, nextTid, freed, {})
    ensures Consistent(ready, Late(sleeping, m, now), all, m, cur, idle, initial, nextTid, freed, {})
    ensures Distinct(Due(sleeping, m, now))
    ensures forall x :: x in Due(sleeping, m, now) ==>
              x in m && m[x].status == Blocked && x != idle && x !in Late(sleeping, m, now)
  {
    DueMembers(sleeping, m, now);
    LateMembers(sleeping, m, now);
    DueLateDistinct(sleeping, m, now);
  }

}
