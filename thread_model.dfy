/*
 * Thread records and the pure parts of threads/thread.c: the constants of
 * the scheduler, the priority comparison used with list_max, the selection
 * rule of next_thread_to_run, the split of the sleeping list made by
 * check_sleeping_threads, init_thread's field setup and the MLFQS
 * arithmetic of the three recalculation functions.
 */
module ThreadModel {
  import opened FprArith

  /** Lowest, default and highest priority (threads/thread.h). */
  const PriMin: int := 0
  const PriDefault: int := 31
  const PriMax: int := 63

  /** The niceness a thread starts with. */
  const NiceDefault: int := 0

  /** Timer ticks a thread may run before a yield is requested (TIME_SLICE). */
  const TimeSlice: nat := 4

  /** Timer interrupts per second (devices/timer.h). */
  const TimerFreq: nat := 100

  /** What thread_create returns when no page is available. */
  const TidError: int := -1

  /** A struct thread, identified by the address of the page it lives in. */
  type ThreadRef = nat

  datatype Status = Running | Ready | Blocked | Dying

  /** The fields of struct thread that scheduling reads or writes. */
  datatype Thread = Thread(
    tid: int,
    status: Status,
    priority: Int32,
    nice: Int32,
    recentCpu: FPReal,
    wakeupAtTick: int)

  /** Every thread of the list has a record. */
  predicate AllIn(s: seq<ThreadRef>, m: map<ThreadRef, Thread>) {
    forall r :: r in s ==> r in m
  }

  /** No thread occurs twice: each struct thread has one list_elem per list. */
  predicate Distinct(s: seq<ThreadRef>) {
    forall i, j :: 0 <= i < j < |s| ==> s[i] != s[j]
  }

  /** A list without repeats has as many entries as it names threads. */
  lemma {:induction false} DistinctCard(s: seq<ThreadRef>)
    requires Distinct(s)
    ensures |(set r: ThreadRef | r in s)| == |s|
  {
    if s != [] {
      var init, last := s[..|s| - 1], s[|s| - 1];
      assert Distinct(init);
      DistinctCard(init);
      assert last !in init;
      assert (set r: ThreadRef | r in s) == (set r: ThreadRef | r in init) + {last} by {
        assert s == init + [last];
      }
    }
  }

  function RemoveAt(s: seq<ThreadRef>, k: nat): seq<ThreadRef>
    requires k < |s|
  {
    s[..k] + s[k + 1..]
  }

  /** list_remove of a thread that occurs once: the others keep their order. */
  function Without(s: seq<ThreadRef>, x: ThreadRef): (r: seq<ThreadRef>)
    ensures forall y :: y in r <==> y in s && y != x
    ensures Distinct(s) ==> Distinct(r)
  {
    if s == [] then []
    else if s[0] == x then Without(s[1..], x)
    else
      var rest := Without(s[1..], x);
      assert Distinct(s) ==> Distinct(s[1..]) && s[0] !in s[1..];
      [s[0]] + rest
  }

  // ---------------------------------------------------------------------
  // Selecting the next thread (thread_cmp_priority, list_max, next_thread_to_run)

  /** thread_cmp_priority: the "less than" that list_max is given. */
  predicate CmpPriority(a: Thread, b: Thread) {
    a.priority < b.priority
  }

  /** The thread at index k has a priority no other thread of s exceeds. */
  predicate IsMaxAt(s: seq<ThreadRef>, m: map<ThreadRef, Thread>, k: int) {
    0 <= k < |s| && AllIn(s, m) &&
    forall i :: 0 <= i < |s| ==> !CmpPriority(m[s[k]], m[s[i]])
  }

  /** The largest priority among the threads of a non-empty list. */
  function MaxPriority(s: seq<ThreadRef>, m: map<ThreadRef, Thread>): (p: int)
    requires s != [] && AllIn(s, m)
    ensures exists i :: 0 <= i < |s| && m[s[i]].priority == p
    ensures forall i :: 0 <= i < |s| ==> m[s[i]].priority <= p
  {
    if |s| == 1 then m[s[0]].priority
    else
      var q := MaxPriority(s[1..], m);
      assert forall i :: 1 <= i < |s| ==> s[i] == s[1..][i - 1];
      if m[s[0]].priority >= q then m[s[0]].priority else q
  }

  /** list_max with thread_cmp_priority: the index of a highest-priority thread. */
  method ListMax(s: seq<ThreadRef>, m: map<ThreadRef, Thread>) returns (k: nat)
    requires s != [] && AllIn(s, m)
    ensures IsMaxAt(s, m, k)
    ensures m[s[k]].priority == MaxPriority(s, m)
  {
    k := 0;
    var i := 1;
    while i < |s|
      invariant 1 <= i <= |s| && k < i
      invariant forall j :: 0 <= j < i ==> !CmpPriority(m[s[k]], m[s[j]])
    {
      if CmpPriority(m[s[k]], m[s[i]]) {
        k := i;
      }
      i := i + 1;
    }
  }

  /**
   * What next_thread_to_run does to the ready list `before`: with an empty
   * list it returns the idle thread; otherwise it removes one thread of
   * highest priority, whichever of several equal ones list_max finds, and
   * leaves the others in order.
   */
  predicate NextChosen(before: seq<ThreadRef>, after: seq<ThreadRef>, next: ThreadRef,
                       idle: ThreadRef, m: map<ThreadRef, Thread>)
  {
    if before == [] then next == idle && after == []
    else exists k :: 0 <= k < |before| && IsMaxAt(before, m, k) && before[k] == next && after == RemoveAt(before, k)
  }

  /**
   * The idle thread is chosen exactly when the ready list is empty; any
   * other choice is a ready thread of the highest priority, and it is the
   * one thread that leaves the list.
   */
  lemma NextChosenIsMax(before: seq<ThreadRef>, after: seq<ThreadRef>, next: ThreadRef,
                        idle: ThreadRef, m: map<ThreadRef, Thread>)
    requires NextChosen(before, after, next, idle, m)
    requires idle !in before
    ensures next == idle <==> before == []
    ensures before != [] ==> next in before && m[next].priority == MaxPriority(before, m)
    ensures before != [] ==> |after| == |before| - 1 && multiset(after) == multiset(before) - multiset{next}
  {
    if before != [] {
      var k :| 0 <= k < |before| && IsMaxAt(before, m, k) && before[k] == next && after == RemoveAt(before, k);
      RemoveAtMultiset(before, k);
      var p := MaxPriority(before, m);
      var i :| 0 <= i < |before| && m[before[i]].priority == p;
      assert !CmpPriority(m[next], m[before[i]]);
    }
  }

  /** Removing the element at index k takes exactly that element out of the multiset. */
  lemma RemoveAtMultiset(s: seq<ThreadRef>, k: nat)
    requires k < |s|
    ensures |RemoveAt(s, k)| == |s| - 1
    ensures multiset(RemoveAt(s, k)) == multiset(s) - multiset{s[k]}
  {
    assert s == s[..k] + [s[k]] + s[k + 1..];
  }

  /** Ready threads of priorities 5, 9 and 3: the one of priority 9 runs next. */
  lemma PicksHighestOfThree(after: seq<ThreadRef>, next: ThreadRef, m: map<ThreadRef, Thread>)
    requires 1 in m && 2 in m && 3 in m
    requires m[1].priority == 5 && m[2].priority == 9 && m[3].priority == 3
    requires NextChosen([1, 2, 3], after, next, 0, m)
    ensures next == 2 && after == [1, 3]
  {
    var s: seq<ThreadRef> := [1, 2, 3];
    var k :| 0 <= k < |s| && IsMaxAt(s, m, k) && s[k] == next && after == RemoveAt(s, k);
    assert !CmpPriority(m[s[k]], m[s[1]]);
    assert k == 1;
    assert RemoveAt(s, 1) == [1, 3];
  }

  /** Removing one element of a list without repetitions keeps the others, once each. */
  lemma RemoveAtMembers(s: seq<ThreadRef>, k: nat)
    requires k < |s| && Distinct(s)
    ensures Distinct(RemoveAt(s, k))
    ensures forall x :: x in RemoveAt(s, k) <==> x in s && x != s[k]
  {
    var r := RemoveAt(s, k);
    assert forall i :: 0 <= i < |r| ==> r[i] == if i < k then s[i] else s[i + 1];
    forall x | x in s && x != s[k] ensures x in r {
      var i :| 0 <= i < |s| && s[i] == x;
      assert r[if i < k then i else i - 1] == x;
    }
  }

  /** The choice depends only on the priorities of the ready threads. */
  lemma SamePrioritiesSameChoice(before: seq<ThreadRef>, after: seq<ThreadRef>, next: ThreadRef,
                                 idle: ThreadRef, m1: map<ThreadRef, Thread>, m2: map<ThreadRef, Thread>)
    requires NextChosen(before, after, next, idle, m1)
    requires forall r :: r in before ==> r in m2 && r in m1 && m2[r].priority == m1[r].priority
    ensures NextChosen(before, after, next, idle, m2)
  {
    if before != [] {
      var k :| 0 <= k < |before| && IsMaxAt(before, m1, k) && before[k] == next && after == RemoveAt(before, k);
      assert IsMaxAt(before, m2, k);
    }
  }

  /** The largest priority of a list with one more thread at its end. */
  lemma MaxPriorityAppend(s: seq<ThreadRef>, x: ThreadRef, m: map<ThreadRef, Thread>)
    requires AllIn(s, m) && x in m
    ensures AllIn(s + [x], m)
    ensures MaxPriority(s + [x], m) == if s == [] || MaxPriority(s, m) < m[x].priority then m[x].priority else MaxPriority(s, m)
  {
    var t := s + [x];
    assert AllIn(t, m);
    var p := MaxPriority(t, m);
    assert t[|s|] == x;
    var i :| 0 <= i < |t| && m[t[i]].priority == p;
    if s != [] {
      var q := MaxPriority(s, m);
      var j :| 0 <= j < |s| && m[s[j]].priority == q;
      assert t[j] == s[j];
      if i < |s| { assert t[i] == s[i]; }
    }
  }

  /** The largest priority of a list depends only on the priorities of its threads. */
  lemma MaxPrioritySame(s: seq<ThreadRef>, m1: map<ThreadRef, Thread>, m2: map<ThreadRef, Thread>)
    requires s != [] && AllIn(s, m1) && AllIn(s, m2)
    requires forall r :: r in s ==> m1[r].priority == m2[r].priority
    ensures MaxPriority(s, m1) == MaxPriority(s, m2)
  {
    var p1, p2 := MaxPriority(s, m1), MaxPriority(s, m2);
    var i :| 0 <= i < |s| && m1[s[i]].priority == p1;
    var j :| 0 <= j < |s| && m2[s[j]].priority == p2;
    assert m1[s[j]].priority <= p1 && m2[s[i]].priority <= p2;
  }

  /** A new ready thread `t` with record `rec` at the back of the ready list. */
  lemma CreatedMaxPriority(s: seq<ThreadRef>, m: map<ThreadRef, Thread>, t: ThreadRef, rec: Thread)
    requires AllIn(s, m) && t !in m
    ensures AllIn(s + [t], m[t := rec])
    ensures MaxPriority(s + [t], m[t := rec]) ==
            if s == [] || MaxPriority(s, m) < rec.priority then rec.priority else MaxPriority(s, m)
  {
    var m' := m[t := rec];
    MaxPriorityAppend(s, t, m');
    if s != [] {
      MaxPrioritySame(s, m, m');
    }
  }

  // ---------------------------------------------------------------------
  // The sleeping list (check_sleeping_threads)

  /** A sleeper is due once the tick count has reached its wake-up tick. */
  predicate WakesBy(m: map<ThreadRef, Thread>, r: ThreadRef, now: int) {
    r in m && m[r].wakeupAtTick <= now
  }

  /** The sleepers of s whose wake-up tick has come, in list order. */
  function Due(s: seq<ThreadRef>, m: map<ThreadRef, Thread>, now: int): seq<ThreadRef>
  {
    if s == [] then []
    else
      var last := s[|s| - 1];
      Due(s[..|s| - 1], m, now) + (if WakesBy(m, last, now) then [last] else [])
  }

  /** The sleepers of s that must go on sleeping, in list order. */
  function Late(s: seq<ThreadRef>, m: map<ThreadRef, Thread>, now: int): seq<ThreadRef>
  {
    if s == [] then []
    else
      var last := s[|s| - 1];
      Late(s[..|s| - 1], m, now) + (if WakesBy(m, last, now) then [] else [last])
  }

  /** One more sleeper examined: it joins the woken or the kept ones, after the earlier ones. */
  lemma PrefixStep(s: seq<ThreadRef>, m: map<ThreadRef, Thread>, now: int, i: nat)
    requires i < |s|
    ensures Due(s[..i + 1], m, now) == Due(s[..i], m, now) + (if WakesBy(m, s[i], now) then [s[i]] else [])
    ensures Late(s[..i + 1], m, now) == Late(s[..i], m, now) + (if WakesBy(m, s[i], now) then [] else [s[i]])
  {
    assert s[..i + 1][..i] == s[..i];
  }

  /**
   * The sleepers of `s` split into those due at tick `now` and the others,
   * each in list order, in one pass over the list.
   */
  method SplitSleepers(s: seq<ThreadRef>, m: map<ThreadRef, Thread>, now: int) returns (kept: seq<ThreadRef>, woke: seq<ThreadRef>)
    ensures kept == Late(s, m, now) && woke == Due(s, m, now)
  {
    kept, woke := [], [];
    var i := 0;
    while i < |s|
      invariant 0 <= i <= |s|
      invariant kept == Late(s[..i], m, now) && woke == Due(s[..i], m, now)
    {
      PrefixStep(s, m, now, i);
      var th := s[i];
      if th in m && now >= m[th].wakeupAtTick {
        woke := woke + [th];
      } else {
        kept := kept + [th];
      }
      i := i + 1;
    }
    assert s[..i] == s;
  }

  /** Exactly the sleepers whose wake-up tick is at most `now` are woken. */
  lemma {:induction false} DueMembers(s: seq<ThreadRef>, m: map<ThreadRef, Thread>, now: int)
    ensures forall x :: x in Due(s, m, now) <==> x in s && WakesBy(m, x, now)
  {
    if s != [] {
      var init, last := s[..|s| - 1], s[|s| - 1];
      DueMembers(init, m, now);
      assert s == init + [last];
    }
  }

  /** Exactly the other sleepers stay asleep. */
  lemma {:induction false} LateMembers(s: seq<ThreadRef>, m: map<ThreadRef, Thread>, now: int)
    ensures forall x :: x in Late(s, m, now) <==> x in s && !WakesBy(m, x, now)
  {
    if s != [] {
      var init, last := s[..|s| - 1], s[|s| - 1];
      LateMembers(init, m, now);
      assert s == init + [last];
    }
  }

  /** Every sleeper is either woken or kept, and none is lost or duplicated. */
  lemma {:induction false} DueLatePartition(s: seq<ThreadRef>, m: map<ThreadRef, Thread>, now: int)
    ensures multiset(Due(s, m, now)) + multiset(Late(s, m, now)) == multiset(s)
  {
    if s != [] {
      var init, last := s[..|s| - 1], s[|s| - 1];
      DueLatePartition(init, m, now);
      MultisetSnoc(s);
      if WakesBy(m, last, now) {
        assert Due(s, m, now) == Due(init, m, now) + [last];
        assert Late(s, m, now) == Late(init, m, now);
      } else {
        assert Due(s, m, now) == Due(init, m, now);
        assert Late(s, m, now) == Late(init, m, now) + [last];
      }
    }
  }

  /** The elements of a non-empty list are those before its last one, and that one. */
  lemma MultisetSnoc(s: seq<ThreadRef>)
    requires s != []
    ensures multiset(s) == multiset(s[..|s| - 1]) + multiset{s[|s| - 1]}
  {
    assert s == s[..|s| - 1] + [s[|s| - 1]];
  }

  /** Woken and kept sleepers each occur once when the sleeping list does. */
  lemma {:induction false} DueLateDistinct(s: seq<ThreadRef>, m: map<ThreadRef, Thread>, now: int)
    requires Distinct(s)
    ensures Distinct(Due(s, m, now)) && Distinct(Late(s, m, now))
  {
    if s != [] {
      var init := s[..|s| - 1];
      assert Distinct(init);
      DueLateDistinct(init, m, now);
      DueMembers(init, m, now);
      LateMembers(init, m, now);
      assert s[|s| - 1] !in init;
    }
  }

  // ---------------------------------------------------------------------
  // MLFQS arithmetic

  /** The C expression of thread_recalculate_priority overflows nowhere. */
  predicate PriorityFits(recentCpu: FPReal, nice: Int32) {
    InInt32(CDiv(recentCpu, 4)) && InInt32(nice * 2) &&
    InInt32(PriMax - FprToInt(CDiv(recentCpu, 4)) - nice * 2)
  }

  /** PRI_MAX - FPR_TO_INT(FPR_DIV_INT(recent_cpu, 4)) - nice * 2, unclamped. */
  function RecalculatedPriority(recentCpu: FPReal, nice: Int32): Int32
    requires PriorityFits(recentCpu, nice)
  {
    PriMax - FprToInt(FprDivInt(recentCpu, 4)) - nice * 2
  }

  /**
   * For a non-negative recent_cpu the priority is PRI_MAX less a quarter of
   * recent_cpu rounded down to an integer, less twice the niceness.
   */
  lemma PriorityOfNonNegativeRecentCpu(recentCpu: FPReal, nice: Int32)
    requires recentCpu >= 0 && PriorityFits(recentCpu, nice)
    ensures RecalculatedPriority(recentCpu, nice) == PriMax - recentCpu / (4 * One) - 2 * nice
  {
    var q := CDiv(recentCpu, 4);
    assert q == recentCpu / 4;
    QuarterThenShift(recentCpu);
  }

  lemma QuarterThenShift(x: int)
    requires x >= 0
    ensures x / 4 / One == x / (4 * One)
  {
    var q := x / 4;
    var r := q / One;
    assert 4 * q <= x < 4 * q + 4;
    assert One * r <= q < One * r + One;
    assert 4 * One * r <= x < 4 * One * r + 4 * One;
  }

  /** A larger niceness never gives a larger priority. */
  lemma PriorityFallsWithNice(recentCpu: FPReal, nice1: Int32, nice2: Int32)
    requires nice1 <= nice2
    requires PriorityFits(recentCpu, nice1) && PriorityFits(recentCpu, nice2)
    ensures RecalculatedPriority(recentCpu, nice2) <= RecalculatedPriority(recentCpu, nice1)
    ensures nice1 < nice2 ==> RecalculatedPriority(recentCpu, nice2) < RecalculatedPriority(recentCpu, nice1)
  {
  }

  /** The result is not clamped to [PRI_MIN, PRI_MAX]. */
  lemma PriorityNotClamped()
    ensures PriorityFits(0, -20) && RecalculatedPriority(0, -20) == PriMax + 40
    ensures PriorityFits(0, 40) && RecalculatedPriority(0, 40) < PriMin
  {
  }

  /**
   * init_thread: a zeroed record in status BLOCKED with the given priority;
   * under MLFQS, niceness NICE_DEFAULT and recent_cpu 0, with the priority
   * recomputed from them.
   */
  function InitThread(tid: int, priority: Int32, mlfqs: bool): (t: Thread)
    requires PriMin <= priority <= PriMax
    ensures t.tid == tid && t.status == Blocked && t.wakeupAtTick == 0
    ensures t.nice == NiceDefault && t.recentCpu == 0
    ensures t.priority == if mlfqs then PriMax else priority
  {
    var t := Thread(tid, Blocked, priority, 0, 0, 0);
    if mlfqs then
      t.(nice := NiceDefault, recentCpu := 0, priority := RecalculatedPriority(0, NiceDefault))
    else t
  }

  /** Every intermediate of thread_recalculate_load_avg fits an int. */
  predicate LoadAvgFits(loadAvg: FPReal, count: int) {
    InInt32(loadAvg * 59) && InInt32(CDiv(loadAvg * 59, 60)) &&
    InInt32(count) && InInt32(CDiv(count * One, 60)) &&
    InInt32(CDiv(loadAvg * 59, 60) + CDiv(count * One, 60))
  }

  /** The number of threads ready or running, not counting the idle thread. */
  function ReadyOrRunning(readyCount: nat, idleRunning: bool): (n: nat)
    ensures n == readyCount || n == readyCount + 1
    ensures n == readyCount <==> idleRunning
  {
    if idleRunning then readyCount else readyCount + 1
  }

  /** load_avg = (59/60) * load_avg + (1/60) * ready_or_running_threads. */
  function NewLoadAvg(loadAvg: FPReal, readyCount: nat, idleRunning: bool): FPReal
    requires LoadAvgFits(loadAvg, ReadyOrRunning(readyCount, idleRunning))
  {
    var parcel1 := FprDivInt(FprMulInt(loadAvg, 59), 60);
    var parcel2 := IntDivInt(ReadyOrRunning(readyCount, idleRunning), 60);
    FprAddFpr(parcel1, parcel2)
  }

  /** From 0, one running thread and an empty ready list give exactly 1/60. */
  lemma LoadAvgFromZero()
    ensures LoadAvgFits(0, ReadyOrRunning(0, false))
    ensures NewLoadAvg(0, 0, false) == IntDivInt(1, 60)
    ensures NewLoadAvg(0, 0, false) == 273
  {
  }

  /** The load average never becomes negative. */
  lemma LoadAvgNonNegative(loadAvg: FPReal, readyCount: nat, idleRunning: bool)
    requires loadAvg >= 0
    requires LoadAvgFits(loadAvg, ReadyOrRunning(readyCount, idleRunning))
    ensures NewLoadAvg(loadAvg, readyCount, idleRunning) >= 0
  {
    DivOfNatural(loadAvg * 59, 60);
    DivOfNatural(ReadyOrRunning(readyCount, idleRunning) * One, 60);
  }

  /** Every intermediate of thread_recalculate_recent_cpu fits an int. */
  predicate RecentCpuFits(loadAvg: FPReal, recentCpu: FPReal, nice: Int32) {
    var part1 := loadAvg * 2;
    var part2 := part1 + One;
    InInt32(part1) && InInt32(part2) && part2 != 0 &&
    InInt32(CDiv(part1 * One, part2)) &&
    InInt32(CDiv(part1 * One, part2) * recentCpu / One) &&
    InInt32(nice * One) &&
    InInt32(CDiv(part1 * One, part2) * recentCpu / One + nice * One)
  }

  /** The decay coefficient (2 * load_avg) / (2 * load_avg + 1), as an FPReal. */
  function DecayCoefficient(loadAvg: FPReal): FPReal
    requires InInt32(loadAvg * 2) && InInt32(loadAvg * 2 + One) && loadAvg * 2 + One != 0
    requires InInt32(CDiv(loadAvg * 2 * One, loadAvg * 2 + One))
  {
    var part1 := FprMulInt(loadAvg, 2);
    var part2 := FprAddInt(part1, 1);
    FprDivFpr(part1, part2)
  }

  /** recent_cpu = (2*load_avg)/(2*load_avg + 1) * recent_cpu + nice. */
  function RecalculatedRecentCpu(loadAvg: FPReal, recentCpu: FPReal, nice: Int32): FPReal
    requires RecentCpuFits(loadAvg, recentCpu, nice)
  {
    var part3 := DecayCoefficient(loadAvg);
    var decayed := FprMulFpr(part3, recentCpu);
    FprAddInt(decayed, nice)
  }

  /** With a non-negative load average the coefficient is in [0, 1). */
  lemma DecayCoefficientBelowOne(loadAvg: FPReal)
    requires loadAvg >= 0 && InInt32(loadAvg * 2 + One)
    ensures InInt32(CDiv(loadAvg * 2 * One, loadAvg * 2 + One))
    ensures 0 <= DecayCoefficient(loadAvg) < One
  {
    var p1, p2 := loadAvg * 2, loadAvg * 2 + One;
    DivOfNatural(p1 * One, p2);
    var q := (p1 * One) / p2;
    assert q * p2 <= p1 * One;
    if q >= One {
      MulMonotone(One, q, p2);
    }
  }

  /** With no load, recent_cpu forgets its past and becomes the niceness. */
  lemma RecentCpuAtZeroLoad(recentCpu: FPReal, nice: Int32)
    requires InInt32(nice * One)
    ensures RecentCpuFits(0, recentCpu, nice)
    ensures RecalculatedRecentCpu(0, recentCpu, nice) == IntToFpr(nice)
  {
  }

  /**
   * With a non-negative load average a non-negative recent_cpu decays: the
   * new value is the niceness plus at most the old value.
   */
  lemma RecentCpuDecays(loadAvg: FPReal, recentCpu: FPReal, nice: Int32)
    requires loadAvg >= 0 && recentCpu >= 0
    requires RecentCpuFits(loadAvg, recentCpu, nice)
    ensures nice * One <= RecalculatedRecentCpu(loadAvg, recentCpu, nice) <= recentCpu + nice * One
  {
    DecayCoefficientBelowOne(loadAvg);
    var c := DecayCoefficient(loadAvg);
    MulMonotone(c, One, recentCpu);
    NonNegativeProduct(c, recentCpu);
    DivOfNatural(c * recentCpu, One);
    DivMonotone(c * recentCpu, One * recentCpu, One);
    assert (One * recentCpu) / One == recentCpu;
  }

  lemma MulMonotone(x: int, y: int, z: int)
    requires x <= y && z >= 0
    ensures x * z <= y * z
  {
    assert y * z - x * z == (y - x) * z;
  }

  lemma NonNegativeProduct(x: int, y: int)
    requires x >= 0 && y >= 0
    ensures x * y >= 0
  {
  }

  lemma DivMonotone(x: int, y: int, d: int)
    requires x <= y && d > 0
    ensures x / d <= y / d
  {
    var qx, qy := x / d, y / d;
    assert qx * d <= x <= y < qy * d + d;
    if qx > qy {
      MulMonotone(qy + 1, qx, d);
    }
  }

  // ---------------------------------------------------------------------
  // The records after a sweep over all_list (thread_foreach)

  function WithPriorityRecalculated(t: Thread): Thread
    requires PriorityFits(t.recentCpu, t.nice)
  {
    t.(priority := RecalculatedPriority(t.recentCpu, t.nice))
  }

  function WithRecentCpuRecalculated(t: Thread, loadAvg: FPReal): Thread
    requires RecentCpuFits(loadAvg, t.recentCpu, t.nice)
  {
    t.(recentCpu := RecalculatedRecentCpu(loadAvg, t.recentCpu, t.nice))
  }

  predicate PrioritiesFit(m: map<ThreadRef, Thread>, all: seq<ThreadRef>) {
    forall r :: r in all && r in m ==> PriorityFits(m[r].recentCpu, m[r].nice)
  }

  predicate RecentCpusFit(m: map<ThreadRef, Thread>, all: seq<ThreadRef>, loadAvg: FPReal) {
    forall r :: r in all && r in m ==> RecentCpuFits(loadAvg, m[r].recentCpu, m[r].nice)
  }

  /**
   * The table after thread_foreach has applied thread_recalculate_priority
   * to each thread of `all`, in list order.
   */
  function PrioritiesRecalculated(m: map<ThreadRef, Thread>, all: seq<ThreadRef>): (r: map<ThreadRef, Thread>)
    requires PrioritiesFit(m, all)
    ensures m.Keys == r.Keys
    ensures forall t :: t in m ==> r[t] == m[t].(priority := r[t].priority)
    decreases |all|
  {
    if all == [] then m
    else
      var t := all[|all| - 1];
      var r := PrioritiesRecalculated(m, all[..|all| - 1]);
      if t in r then r[t := WithPriorityRecalculated(r[t])] else r
  }

  /**
   * The table after thread_foreach has applied thread_recalculate_recent_cpu
   * to each thread of `all`, in list order.
   */
  function RecentCpusRecalculated(m: map<ThreadRef, Thread>, all: seq<ThreadRef>, loadAvg: FPReal): (r: map<ThreadRef, Thread>)
    requires Distinct(all) && RecentCpusFit(m, all, loadAvg)
    ensures m.Keys == r.Keys
    ensures forall t :: t in m ==> r[t] == m[t].(recentCpu := r[t].recentCpu)
    ensures forall t :: t in m && t !in all ==> r[t] == m[t]
    decreases |all|
  {
    if all == [] then m
    else
      var t := all[|all| - 1];
      var r := RecentCpusRecalculated(m, all[..|all| - 1], loadAvg);
      if t in r then r[t := WithRecentCpuRecalculated(r[t], loadAvg)] else r
  }

  /**
   * The recalculations touch only the scheduling numbers of a thread: the
   * set of threads, their status, tid and wake-up tick stay as they were.
   */
  predicate SameShape(m1: map<ThreadRef, Thread>, m2: map<ThreadRef, Thread>) {
    m1.Keys == m2.Keys &&
    forall r :: r in m1 ==> m2[r].status == m1[r].status && m2[r].tid == m1[r].tid && m2[r].wakeupAtTick == m1[r].wakeupAtTick
  }

  /** Each thread of `all` gets the priority computed from its own recent_cpu and niceness; the others keep theirs. */
  lemma {:induction false} PrioritiesRecalculatedAt(m: map<ThreadRef, Thread>, all: seq<ThreadRef>, t: ThreadRef)
    requires PrioritiesFit(m, all) && t in m
    ensures PrioritiesRecalculated(m, all)[t] == if t in all then WithPriorityRecalculated(m[t]) else m[t]
    ensures SameShape(m, PrioritiesRecalculated(m, all))
    decreases |all|
  {
    if all != [] {
      var front := all[..|all| - 1];
      assert all == front + [all[|all| - 1]];
      PrioritiesRecalculatedAt(m, front, t);
    }
  }

  /** Each thread of `all` gets its recent_cpu decayed once; the others keep theirs. */
  lemma {:induction false} RecentCpusRecalculatedAt(m: map<ThreadRef, Thread>, all: seq<ThreadRef>, loadAvg: FPReal, t: ThreadRef)
    requires Distinct(all) && RecentCpusFit(m, all, loadAvg) && t in m
    ensures RecentCpusRecalculated(m, all, loadAvg)[t] == if t in all then WithRecentCpuRecalculated(m[t], loadAvg) else m[t]
    ensures SameShape(m, RecentCpusRecalculated(m, all, loadAvg))
    decreases |all|
  {
    if all != [] {
      var front := all[..|all| - 1];
      assert all == front + [all[|all| - 1]];
      RecentCpusRecalculatedAt(m, front, loadAvg, t);
    }
  }

  /** The table after each sleeper of `woken`, in turn, has been made READY. */
  function Woken(m: map<ThreadRef, Thread>, woken: seq<ThreadRef>): (r: map<ThreadRef, Thread>)
    ensures m.Keys == r.Keys
    ensures forall t :: t in m && t !in woken ==> r[t] == m[t]
    decreases |woken|
  {
    if woken == [] then m
    else
      var t := woken[|woken| - 1];
      var r := Woken(m, woken[..|woken| - 1]);
      if t in r then r[t := r[t].(status := Ready)] else r
  }

  /** A woken sleeper is READY and otherwise unchanged; the other threads are untouched. */
  lemma {:induction false} WokenAt(m: map<ThreadRef, Thread>, woken: seq<ThreadRef>, t: ThreadRef)
    requires t in m
    ensures Woken(m, woken)[t] == if t in woken then m[t].(status := Ready) else m[t]
    decreases |woken|
  {
    if woken != [] {
      var front := woken[..|woken| - 1];
      assert woken == front + [woken[|woken| - 1]];
      WokenAt(m, front, t);
    }
  }

  /** The k-th of the sleepers to wake, each listed once, is still as it was before its turn. */
  lemma WakeStep(ready: seq<ThreadRef>, m: map<ThreadRef, Thread>, woke: seq<ThreadRef>, k: nat)
    requires Distinct(woke) && k < |woke| && woke[k] in m
    ensures woke[k] in Woken(m, woke[..k]) && Woken(m, woke[..k])[woke[k]] == m[woke[k]]
    ensures (ready + woke[..k]) + [woke[k]] == ready + woke[..k + 1]
    ensures Woken(m, woke[..k + 1]) == Woken(m, woke[..k])[woke[k] := m[woke[k]].(status := Ready)]
  {
    assert woke[..k + 1][..k] == woke[..k];
    assert woke[k] !in woke[..k];
  }

  /** One more thread of `all` has had its priority recalculated. */
  lemma PrioritiesRecalculatedStep(m: map<ThreadRef, Thread>, all: seq<ThreadRef>, i: nat)
    requires i < |all| && PrioritiesFit(m, all) && all[i] in m
    ensures PrioritiesFit(m, all[..i]) && PrioritiesFit(m, all[..i + 1])
    ensures var r := PrioritiesRecalculated(m, all[..i]);
            PriorityFits(r[all[i]].recentCpu, r[all[i]].nice) &&
            PrioritiesRecalculated(m, all[..i + 1]) == r[all[i] := WithPriorityRecalculated(r[all[i]])]
  {
    assert all[..i + 1][..i] == all[..i];
  }

  /** One more thread of `all` has had its recent_cpu recalculated. */
  lemma RecentCpusRecalculatedStep(m: map<ThreadRef, Thread>, all: seq<ThreadRef>, la: FPReal, i: nat)
    requires i < |all| && Distinct(all) && RecentCpusFit(m, all, la) && all[i] in m
    ensures Distinct(all[..i]) && RecentCpusFit(m, all[..i], la)
    ensures Distinct(all[..i + 1]) && RecentCpusFit(m, all[..i + 1], la)
    ensures var r := RecentCpusRecalculated(m, all[..i], la);
            RecentCpuFits(la, r[all[i]].recentCpu, r[all[i]].nice) &&
            RecentCpusRecalculated(m, all[..i + 1], la) == r[all[i] := WithRecentCpuRecalculated(r[all[i]], la)]
  {
    assert all[..i + 1][..i] == all[..i];
    assert all[i] !in all[..i];
  }

  /**
   * The loop of thread_foreach with thread_recalculate_priority: each thread
   * of `all` in turn takes the priority its recent_cpu and nice give.
   */
  method SweepPriorities(m: map<ThreadRef, Thread>, all: seq<ThreadRef>) returns (r: map<ThreadRef, Thread>)
    requires AllIn(all, m) && PrioritiesFit(m, all)
    ensures r == PrioritiesRecalculated(m, all)
  {
    r := m;
    var i := 0;
    while i < |all|
      invariant 0 <= i <= |all|
      invariant PrioritiesFit(m, all[..i])
      invariant r == PrioritiesRecalculated(m, all[..i])
    {
      PrioritiesRecalculatedStep(m, all, i);
      var t := all[i];
      r := r[t := WithPriorityRecalculated(r[t])];
      i := i + 1;
    }
    assert all[..i] == all;
  }

  /**
   * The loop of thread_foreach with thread_recalculate_recent_cpu: each
   * thread of `all` in turn decays its recent_cpu and adds its nice value.
   */
  method SweepRecentCpus(m: map<ThreadRef, Thread>, all: seq<ThreadRef>, loadAvg: FPReal) returns (r: map<ThreadRef, Thread>)
    requires AllIn(all, m) && Distinct(all) && RecentCpusFit(m, all, loadAvg)
    ensures r == RecentCpusRecalculated(m, all, loadAvg)
  {
    r := m;
    var i := 0;
    while i < |all|
      invariant 0 <= i <= |all|
      invariant RecentCpusFit(m, all[..i], loadAvg)
      invariant r == RecentCpusRecalculated(m, all[..i], loadAvg)
    {
      RecentCpusRecalculatedStep(m, all, loadAvg, i);
      var t := all[i];
      r := r[t := WithRecentCpuRecalculated(r[t], loadAvg)];
      i := i + 1;
    }
    assert all[..i] == all;
  }

  // ---------------------------------------------------------------------
  // The MLFQS part of thread_tick

  /** The running thread's recent_cpu after FPR_INC, unless it is the idle thread. */
  function Charged(m: map<ThreadRef, Thread>, cur: ThreadRef, idle: ThreadRef): (r: map<ThreadRef, Thread>)
    requires cur in m && (cur != idle ==> InInt32(m[cur].recentCpu + One))
    ensures SameShape(m, r)
    ensures forall t :: t in m && t != cur ==> r[t] == m[t]
    ensures cur == idle ==> r == m
    ensures cur != idle ==> r[cur] == m[cur].(recentCpu := m[cur].recentCpu + One)
    ensures cur != idle ==> FprToInt(r[cur].recentCpu) == FprToInt(m[cur].recentCpu) + 1
  {
    if cur == idle then m else m[cur := m[cur].(recentCpu := FprInc(m[cur].recentCpu))]
  }

  /** Nothing in the MLFQS steps of thread_tick overflows. */
  predicate MlfqsTickFits(m: map<ThreadRef, Thread>, cur: ThreadRef, idle: ThreadRef,
                          all: seq<ThreadRef>, readyCount: nat, loadAvg: FPReal, now: int)
  {
    cur in m && (cur != idle ==> InInt32(m[cur].recentCpu + One)) && Distinct(all) &&
    var m1 := Charged(m, cur, idle);
    (now % 4 == 0 ==> PrioritiesFit(m1, all)) &&
    var m2 := if now % 4 == 0 then PrioritiesRecalculated(m1, all) else m1;
    (now % TimerFreq == 0 ==>
      LoadAvgFits(loadAvg, ReadyOrRunning(readyCount, cur == idle)) &&
      RecentCpusFit(m2, all, NewLoadAvg(loadAvg, readyCount, cur == idle)))
  }

  /**
   * The thread table and load_avg after the MLFQS steps of thread_tick:
   * charge the running thread one tick, every 4th tick recompute every
   * priority, and once a second recompute load_avg and then every recent_cpu.
   */
  function MlfqsTick(m: map<ThreadRef, Thread>, cur: ThreadRef, idle: ThreadRef,
                     all: seq<ThreadRef>, readyCount: nat, loadAvg: FPReal, now: int): (r: (FPReal, map<ThreadRef, Thread>))
    requires MlfqsTickFits(m, cur, idle, all, readyCount, loadAvg, now)
    ensures SameShape(m, r.1)
    ensures forall t :: t in m ==> r.1[t] == m[t].(priority := r.1[t].priority, recentCpu := r.1[t].recentCpu)
    ensures now % TimerFreq != 0 ==> r.0 == loadAvg
  {
    var m1 := Charged(m, cur, idle);
    var m2 := if now % 4 == 0 then PrioritiesRecalculated(m1, all) else m1;
    if now % TimerFreq == 0 then
      var la := NewLoadAvg(loadAvg, readyCount, cur == idle);
      (la, RecentCpusRecalculated(m2, all, la))
    else (loadAvg, m2)
  }

  /**
   * The thread table, load_avg, ready list and sleeping list after
   * thread_tick: the MLFQS steps when `mlfqs` is set, then every sleeper
   * that is due wakes, in sleeping-list order.
   */
  function TickResult(mlfqs: bool, m: map<ThreadRef, Thread>, loadAvg: FPReal,
                      ready: seq<ThreadRef>, sleeping: seq<ThreadRef>,
                      cur: ThreadRef, idle: ThreadRef, all: seq<ThreadRef>, now: int)
    : (map<ThreadRef, Thread>, FPReal, seq<ThreadRef>, seq<ThreadRef>)
    requires mlfqs ==> MlfqsTickFits(m, cur, idle, all, |ready|, loadAvg, now)
  {
    var r := if mlfqs then MlfqsTick(m, cur, idle, all, |ready|, loadAvg, now) else (loadAvg, m);
    var due := Due(sleeping, r.1, now);
    (Woken(r.1, due), r.0, ready + due, Late(sleeping, r.1, now))
  }
}
