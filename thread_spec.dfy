/**
 * The user-level threading library as values: the fixed table of thread
 * slots, the scheduler's globals, and what creation, destruction, yielding
 * and the selection passes of the scheduler do to them. Module ThreadLib
 * runs the same operations in place.
 */
module ThreadSpec {
  import opened Wrappers

  const MAXULTHREADS: nat := 100

  datatype ThreadState = FREE | RUNNABLE | YIELD

  datatype Algorithm = ROUNDROBIN | PRIORITY | FCFS

  /** The saved registers of a thread: ra, sp, s0..s11 and a0..a5. */
  datatype Context = Context(ra: bv64, sp: bv64, saved: seq<bv64>, args: seq<bv64>)

  /** -1 stored in an unsigned 64-bit field. */
  const UNSET: bv64 := 0xFFFF_FFFF_FFFF_FFFF

  datatype UThread = UThread(tid: int, priority: int, time: bv64, startFunc: bv64,
                             stackPointer: bv64, state: ThreadState, context: Context)

  /** A slot as C's zero-initialised static storage leaves it: tid 0,
      priority 0, FREE, every register 0. */
  function ZeroThread(): UThread {
    UThread(0, 0, 0, 0, 0, FREE, Context(0, 0, seq(12, _ => 0), seq(6, _ => 0)))
  }

  /** The scheduler's globals: the slot table and main thread fields of
      main_thread, thread_count, and current_thread / last_yielded_thread as
      slot indices, -1 standing for NULL. */
  datatype Sched = Sched(threads: seq<UThread>, mainTid: int, mainCount: int, algo: Algorithm,
                         threadCount: int, current: int, lastYielded: int)

  /** A slot as ulthread_init and ulthread_destroy leave it; the saved
      context is not touched. */
  function Reset(t: UThread): UThread {
    t.(tid := -1, priority := -1, state := FREE, startFunc := UNSET, stackPointer := UNSET, time := UNSET)
  }

  /** The time of a thread, compared as the unsigned value it is. */
  function Time(t: UThread): nat {
    t.time as nat
  }

  predicate Runnable(t: UThread) {
    t.state == RUNNABLE
  }

  // ------------------------------------------------------------------ init

  /** ulthread_init: every slot reset, main tid and count 0, the algorithm
      chosen. thread_count, current and last-yielded are not touched. */
  function Init(s: Sched, algo: Algorithm): (r: Sched)
    ensures |r.threads| == |s.threads|
    ensures forall i :: 0 <= i < |s.threads| ==>
              r.threads[i].state == FREE && r.threads[i].tid == -1 && r.threads[i].priority == -1 &&
              r.threads[i].time == UNSET && r.threads[i].startFunc == UNSET && r.threads[i].stackPointer == UNSET
  {
    s.(threads := seq(|s.threads|, i requires 0 <= i < |s.threads| => Reset(s.threads[i])),
       mainTid := 0, mainCount := 0, algo := algo)
  }

  // ---------------------------------------------------------------- create

  /** The first FREE slot from `from` on. */
  function FirstFree(ts: seq<UThread>, from: nat): (r: Option<nat>)
    requires from <= |ts|
    ensures r.Some? ==> from <= r.value < |ts| && ts[r.value].state == FREE &&
                        forall j :: from <= j < r.value ==> ts[j].state != FREE
    ensures r.None? ==> forall j :: from <= j < |ts| ==> ts[j].state != FREE
    decreases |ts| - from
  {
    if from == |ts| then None
    else if ts[from].state == FREE then Some(from)
    else FirstFree(ts, from + 1)
  }

  function Zeros(n: nat): (r: seq<bv64>)
    ensures |r| == n && forall i :: 0 <= i < n ==> r[i] == 0
  {
    seq(n, _ => 0)
  }

  /** A fresh thread's context: zeroed, then ra, sp and a0..a5 set. */
  function StartContext(start: bv64, stack: bv64, args: seq<bv64>): Context
    requires |args| >= 6
  {
    Context(start, stack, Zeros(12), args[..6])
  }

  /** What ulthread_create needs: a FREE slot (it indexes with -1
      otherwise) and six arguments. */
  predicate CanCreate(s: Sched, args: seq<bv64>) {
    FirstFree(s.threads, 0).Some? && |args| >= 6
  }

  /** ulthread_create: the first FREE slot becomes a runnable thread with id
      thread_count, and thread_count grows by one. now is ctime(). */
  function Create(s: Sched, start: bv64, stack: bv64, args: seq<bv64>, priority: int, now: bv64): Sched
    requires CanCreate(s, args)
  {
    var k := FirstFree(s.threads, 0).value;
    s.(threads := s.threads[k := UThread(s.threadCount, priority, now, start, stack, RUNNABLE,
                                         StartContext(start, stack, args))],
       threadCount := s.threadCount + 1)
  }

  // --------------------------------------------------------------- destroy

  /** The first slot from `from` on whose id is tid. */
  function FirstTid(ts: seq<UThread>, tid: int, from: nat): (r: Option<nat>)
    requires from <= |ts|
    ensures r.Some? ==> from <= r.value < |ts| && ts[r.value].tid == tid &&
                        forall j :: from <= j < r.value ==> ts[j].tid != tid
    ensures r.None? ==> forall j :: from <= j < |ts| ==> ts[j].tid != tid
    decreases |ts| - from
  {
    if from == |ts| then None
    else if ts[from].tid == tid then Some(from)
    else FirstTid(ts, tid, from + 1)
  }

  /** current_thread is not NULL. */
  predicate HasCurrent(s: Sched) {
    0 <= s.current < |s.threads|
  }

  /** ulthread_destroy: the current thread becomes the last yielded, the
      first slot carrying its id is reset, and thread_count drops by one. */
  function Destroy(s: Sched): Sched
    requires HasCurrent(s)
  {
    var threads :=
      match FirstTid(s.threads, s.threads[s.current].tid, 0)
      case Some(k) => s.threads[k := Reset(s.threads[k])]
      case None => s.threads;
    s.(threads := threads, threadCount := s.threadCount - 1, lastYielded := s.current)
  }

  // ----------------------------------------------------------------- yield

  /** ulthread_yield: outside FCFS the current thread's time becomes now;
      it becomes the last yielded. */
  function Yield(s: Sched, now: bv64): Sched
    requires HasCurrent(s)
  {
    var threads := if s.algo != FCFS then s.threads[s.current := s.threads[s.current].(time := now)]
                   else s.threads;
    s.(threads := threads, lastYielded := s.current)
  }

  // ------------------------------------------------------------- selection

  /** The first RUNNABLE slot from `from` on. */
  function FirstRunnable(ts: seq<UThread>, from: nat): (r: Option<nat>)
    requires from <= |ts|
    ensures r.Some? ==> from <= r.value < |ts| && Runnable(ts[r.value]) &&
                        forall j :: from <= j < r.value ==> !Runnable(ts[j])
    ensures r.None? ==> forall j :: from <= j < |ts| ==> !Runnable(ts[j])
    decreases |ts| - from
  {
    if from == |ts| then None
    else if Runnable(ts[from]) then Some(from)
    else FirstRunnable(ts, from + 1)
  }

  /** The scheduler's first step: with no current thread, the first
      RUNNABLE one, if any. */
  function Starting(s: Sched): int {
    if s.current != -1 then s.current
    else match FirstRunnable(s.threads, 0) case Some(k) => k case None => -1
  }

  /** The FCFS and round-robin pass over the first n slots, started from
      slot c: move to any RUNNABLE thread with a strictly smaller time. */
  function EarliestUpTo(ts: seq<UThread>, c: nat, n: nat): (f: nat)
    requires c < |ts| && n <= |ts|
    ensures f < |ts|
  {
    if n == 0 then c
    else
      var f := EarliestUpTo(ts, c, n - 1);
      if Runnable(ts[n - 1]) && Time(ts[n - 1]) < Time(ts[f]) then n - 1 else f
  }

  /** The priority pass over the first n slots, started from slot c, with
      lyTid the id of the last yielded thread: leave a thread carrying lyTid
      for the first RUNNABLE one that does not, and otherwise move to any
      RUNNABLE thread not carrying lyTid whose priority is at least as high. */
  function HighestUpTo(ts: seq<UThread>, lyTid: int, c: nat, n: nat): (f: nat)
    requires c < |ts| && n <= |ts|
    ensures f < |ts|
  {
    if n == 0 then c
    else
      var f := HighestUpTo(ts, lyTid, c, n - 1);
      var t := ts[n - 1];
      if !Runnable(t) then f
      else if ts[f].tid == lyTid && t.tid != lyTid then n - 1
      else if t.tid != lyTid && t.priority >= ts[f].priority then n - 1
      else f
  }

  /** What one round of ulthread_schedule needs: a thread to start from
      (the source dereferences NULL otherwise). */
  predicate CanSchedule(s: Sched) {
    0 <= Starting(s) < |s.threads|
  }

  /** The id the priority pass compares against: that of the last yielded
      thread, or, before any thread has yielded, nullTid, the word the source
      reads through the NULL pointer (user address 0 is mapped in xv6). */
  function LastYieldedTid(s: Sched, nullTid: int): (t: int)
    ensures 0 <= s.lastYielded < |s.threads| ==> t == s.threads[s.lastYielded].tid
  {
    if 0 <= s.lastYielded < |s.threads| then s.threads[s.lastYielded].tid else nullTid
  }

  /** One round of ulthread_schedule up to the context switch: the thread
      it switches to becomes current. */
  function Schedule(s: Sched, nullTid: int): Sched
    requires CanSchedule(s)
  {
    var c := Starting(s);
    var n := |s.threads|;
    var f := if s.algo == PRIORITY then HighestUpTo(s.threads, LastYieldedTid(s, nullTid), c, n)
             else EarliestUpTo(s.threads, c, n);
    s.(current := f)
  }

  // ------------------------------------------------------------ invariants

  /** The number of slots in use. */
  function Live(ts: seq<UThread>): (n: nat)
    ensures n <= |ts|
  {
    if ts == [] then 0 else Live(ts[..|ts| - 1]) + (if ts[|ts| - 1].state != FREE then 1 else 0)
  }

  /** The table is full size, free slots carry id -1, slots in use carry
      positive ids, and thread_count is one more than the slots in use. */
  predicate Valid(s: Sched) {
    |s.threads| == MAXULTHREADS &&
    (forall i :: 0 <= i < |s.threads| ==> (s.threads[i].state == FREE ==> s.threads[i].tid == -1)) &&
    (forall i :: 0 <= i < |s.threads| ==> (s.threads[i].state != FREE ==> s.threads[i].tid >= 1)) &&
    s.threadCount == Live(s.threads) + 1
  }

  // ---------------------------------------------------------------- lemmas

  /** Rewriting one slot moves the count by what the slot's use changed. */
  lemma {:induction false} LiveUpdate(ts: seq<UThread>, k: nat, t: UThread)
    requires k < |ts|
    ensures Live(ts[k := t]) ==
            Live(ts) - (if ts[k].state != FREE then 1 else 0) + (if t.state != FREE then 1 else 0)
  {
    var ts' := ts[k := t];
    if k == |ts| - 1 {
      assert ts'[..|ts'| - 1] == ts[..|ts| - 1];
    } else {
      assert ts'[..|ts'| - 1] == ts[..|ts| - 1][k := t];
      LiveUpdate(ts[..|ts| - 1], k, t);
    }
  }

  /** The table counts nothing exactly when every slot is free. */
  lemma {:induction false} LiveNone(ts: seq<UThread>)
    ensures Live(ts) == 0 <==> forall i :: 0 <= i < |ts| ==> ts[i].state == FREE
  {
    if ts != [] {
      LiveNone(ts[..|ts| - 1]);
      assert forall i :: 0 <= i < |ts| - 1 ==> ts[..|ts| - 1][i] == ts[i];
    }
  }

  /** The table is full exactly when every slot is in use. */
  lemma {:induction false} LiveFull(ts: seq<UThread>)
    ensures Live(ts) == |ts| <==> forall i :: 0 <= i < |ts| ==> ts[i].state != FREE
  {
    if ts != [] {
      LiveFull(ts[..|ts| - 1]);
      assert forall i :: 0 <= i < |ts| - 1 ==> ts[..|ts| - 1][i] == ts[i];
    }
  }

  /** ulthread_init, on a library whose thread_count is still its initial
      1, leaves a valid, empty table. */
  lemma InitValid(s: Sched, algo: Algorithm)
    requires |s.threads| == MAXULTHREADS && s.threadCount == 1
    ensures Valid(Init(s, algo)) && Live(Init(s, algo).threads) == 0
  {
    LiveNone(Init(s, algo).threads);
  }

  /** Creation keeps the table valid, and succeeds on a valid table exactly
      while some slot is free. */
  lemma CreateValid(s: Sched, start: bv64, stack: bv64, args: seq<bv64>, priority: int, now: bv64)
    requires Valid(s) && |args| >= 6
    ensures CanCreate(s, args) <==> s.threadCount <= MAXULTHREADS
    ensures CanCreate(s, args) ==> Valid(Create(s, start, stack, args, priority, now))
  {
    LiveFull(s.threads);
    if CanCreate(s, args) {
      var k := FirstFree(s.threads, 0).value;
      var r := Create(s, start, stack, args, priority, now);
      LiveUpdate(s.threads, k, r.threads[k]);
    }
  }

  /** Destroying a thread that is in use frees one slot in use, the first
      carrying the thread's id, and keeps the table valid. That slot is the
      thread's own unless an earlier one shares its id (see IdReused). */
  lemma DestroyValid(s: Sched)
    requires Valid(s) && HasCurrent(s) && s.threads[s.current].state != FREE
    ensures var k := FirstTid(s.threads, s.threads[s.current].tid, 0);
            var r := Destroy(s);
            Valid(r) && Live(r.threads) == Live(s.threads) - 1 &&
            k.Some? && k.value <= s.current && s.threads[k.value].state != FREE &&
            r.threads == s.threads[k.value := Reset(s.threads[k.value])]
  {
    var t := s.threads[s.current].tid;
    var k := FirstTid(s.threads, t, 0).value;
    LiveUpdate(s.threads, k, Reset(s.threads[k]));
  }

  /** Ids from consecutive creations are consecutive: with no destruction
      between, each new thread's id is one more than the last. */
  lemma CreateTwice(s: Sched, start: bv64, stack: bv64, args: seq<bv64>, p1: int, p2: int, t1: bv64, t2: bv64)
    requires CanCreate(s, args)
    requires CanCreate(Create(s, start, stack, args, p1, t1), args)
    ensures var r1 := Create(s, start, stack, args, p1, t1);
            var r2 := Create(r1, start, stack, args, p2, t2);
            var k1 := FirstFree(s.threads, 0).value;
            var k2 := FirstFree(r1.threads, 0).value;
            k1 != k2 && r2.threads[k1].tid == s.threadCount && r2.threads[k2].tid == s.threadCount + 1
  {
  }

  /** Ids are handed out from thread_count, which destruction lowers: on an
      empty table, create, create, destroy the first and create again, and
      the new thread in slot 0 gets the id 2 that the thread in slot 1 still
      carries. Destroying the thread in slot 1 then frees slot 0. */
  lemma IdReused(s: Sched, start: bv64, stack: bv64, args: seq<bv64>, p: int, now: bv64)
    requires Valid(s) && Live(s.threads) == 0 && |args| >= 6
    ensures CanCreate(s, args)
    ensures var r1 := Create(s, start, stack, args, p, now);
            CanCreate(r1, args) &&
            var r2 := Create(r1, start, stack, args, p, now).(current := 0);
            HasCurrent(r2) && CanCreate(Destroy(r2), args) &&
            var r3 := Create(Destroy(r2), start, stack, args, p, now);
            r3.threads[0].tid == r3.threads[1].tid == 2 &&
            var r4 := Destroy(r3.(current := 1));
            r4.threads[0].state == FREE && r4.threads[1].state == RUNNABLE
  {
    LiveNone(s.threads);
    var r1 := Create(s, start, stack, args, p, now);
    assert FirstFree(s.threads, 0) == Some(0);
    assert FirstFree(r1.threads, 0) == Some(1);
    var r2 := Create(r1, start, stack, args, p, now).(current := 0);
    assert FirstTid(r2.threads, 1, 0) == Some(0);
    var d := Destroy(r2);
    assert FirstFree(d.threads, 0) == Some(0);
    var r3 := Create(d, start, stack, args, p, now);
    assert FirstTid(r3.threads, 2, 0) == Some(0);
  }

  /** Ids drawn from a counter that only grows: every slot in use carries an
      id in [1, next), and no two slots in use share one. */
  ghost predicate FreshIds(ts: seq<UThread>, next: int) {
    (forall i :: 0 <= i < |ts| && ts[i].state != FREE ==> 1 <= ts[i].tid < next) &&
    (forall i, j :: 0 <= i < j < |ts| && ts[i].state != FREE && ts[j].state != FREE ==>
       ts[i].tid != ts[j].tid)
  }

  /** ulthread_create with the id taken from a counter that destruction does
      not lower: the first FREE slot becomes a runnable thread with id next. */
  function CreateFresh(s: Sched, next: int, start: bv64, stack: bv64, args: seq<bv64>,
                       priority: int, now: bv64): Sched
    requires CanCreate(s, args)
  {
    var k := FirstFree(s.threads, 0).value;
    s.(threads := s.threads[k := UThread(next, priority, now, start, stack, RUNNABLE,
                                         StartContext(start, stack, args))],
       threadCount := s.threadCount + 1)
  }

  /** The corrected creation keeps the table valid and the ids distinct, and
      the new thread carries the counter's value. */
  lemma CreateFreshDistinct(s: Sched, next: int, start: bv64, stack: bv64, args: seq<bv64>,
                            priority: int, now: bv64)
    requires Valid(s) && FreshIds(s.threads, next) && next >= 1 && CanCreate(s, args)
    ensures var k := FirstFree(s.threads, 0).value;
            var r := CreateFresh(s, next, start, stack, args, priority, now);
            Valid(r) && FreshIds(r.threads, next + 1) && r.threads[k].tid == next &&
            r.threads[k].state == RUNNABLE
  {
    var k := FirstFree(s.threads, 0).value;
    var r := CreateFresh(s, next, start, stack, args, priority, now);
    LiveUpdate(s.threads, k, r.threads[k]);
  }

  /** With distinct ids, ulthread_destroy frees the current thread's own
      slot and no other. */
  lemma DestroyFreesCurrent(s: Sched, next: int)
    requires Valid(s) && FreshIds(s.threads, next)
    requires HasCurrent(s) && s.threads[s.current].state != FREE
    ensures Destroy(s).threads == s.threads[s.current := Reset(s.threads[s.current])]
    ensures Destroy(s).threads[s.current].state == FREE
  {
    var t := s.threads[s.current].tid;
    assert FirstTid(s.threads, t, 0) == Some(s.current);
  }

  /** The FCFS and round-robin pass ends on a thread whose time is no later
      than any RUNNABLE thread's; it is the starting thread or a RUNNABLE
      one, and when it moved, every RUNNABLE thread before it is strictly
      later, so the earliest slot wins a tie. */
  lemma {:induction false} EarliestIsOldest(ts: seq<UThread>, c: nat, n: nat)
    requires c < |ts| && n <= |ts|
    ensures var f := EarliestUpTo(ts, c, n);
            (f == c || (f < n && Runnable(ts[f]))) &&
            Time(ts[f]) <= Time(ts[c]) &&
            (forall i :: 0 <= i < n && Runnable(ts[i]) ==> Time(ts[f]) <= Time(ts[i])) &&
            (f != c ==> forall i :: 0 <= i < f && Runnable(ts[i]) ==> Time(ts[f]) < Time(ts[i]))
  {
    if n > 0 {
      EarliestIsOldest(ts, c, n - 1);
    }
  }

  /** The priority pass ends on the starting thread or on a RUNNABLE thread
      not carrying lyTid. It leaves lyTid whenever a RUNNABLE thread without
      it exists; its choice then has the highest priority among those
      threads, and every one of them after it has a strictly lower one, so
      the latest slot wins a tie. */
  lemma {:induction false} HighestIsPreferred(ts: seq<UThread>, lyTid: int, c: nat, n: nat)
    requires c < |ts| && n <= |ts|
    ensures var f := HighestUpTo(ts, lyTid, c, n);
            (f == c || (f < n && Runnable(ts[f]) && ts[f].tid != lyTid)) &&
            ((exists i :: 0 <= i < n && Runnable(ts[i]) && ts[i].tid != lyTid) ==> ts[f].tid != lyTid) &&
            (ts[f].tid != lyTid ==>
               (forall i :: 0 <= i < n && Runnable(ts[i]) && ts[i].tid != lyTid ==>
                  ts[i].priority <= ts[f].priority) &&
               (forall i :: f < i < n && Runnable(ts[i]) && ts[i].tid != lyTid ==>
                  ts[i].priority < ts[f].priority))
  {
    if n > 0 {
      HighestIsPreferred(ts, lyTid, c, n - 1);
    }
  }

  /** One round of scheduling keeps the table and globals, and moves the
      current thread onto the choice of the algorithm's pass. */
  lemma ScheduleChoice(s: Sched, nullTid: int)
    requires CanSchedule(s)
    ensures var r := Schedule(s, nullTid);
            r.(current := s.current) == s && 0 <= r.current < |s.threads|
    ensures var r := Schedule(s, nullTid);
            s.algo != PRIORITY ==>
              forall i :: 0 <= i < |s.threads| && Runnable(s.threads[i]) ==>
                Time(s.threads[r.current]) <= Time(s.threads[i])
    ensures var r := Schedule(s, nullTid);
            s.algo == PRIORITY ==>
            var lyTid := LastYieldedTid(s, nullTid);
            (exists i :: 0 <= i < |s.threads| && Runnable(s.threads[i]) && s.threads[i].tid != lyTid) ==>
              s.threads[r.current].tid != lyTid &&
              forall i :: 0 <= i < |s.threads| && Runnable(s.threads[i]) && s.threads[i].tid != lyTid ==>
                s.threads[i].priority <= s.threads[r.current].priority
  {
    if s.algo == PRIORITY {
      HighestIsPreferred(s.threads, LastYieldedTid(s, nullTid), Starting(s), |s.threads|);
    } else {
      EarliestIsOldest(s.threads, Starting(s), |s.threads|);
    }
  }

  /** Yielding keeps the table valid and changes no slot but the current
      thread's time, and that only outside FCFS. */
  lemma YieldKeeps(s: Sched, now: bv64)
    requires Valid(s) && HasCurrent(s)
    ensures var r := Yield(s, now);
            Valid(r) && r.lastYielded == s.current &&
            (s.algo == FCFS ==> r.threads == s.threads) &&
            (s.algo != FCFS ==> r.threads[s.current].time == now &&
                                r.threads[s.current].(time := s.threads[s.current].time) == s.threads[s.current]) &&
            forall i :: 0 <= i < |s.threads| && i != s.current ==> r.threads[i] == s.threads[i]
  {
    if s.algo != FCFS {
      LiveUpdate(s.threads, s.current, Yield(s, now).threads[s.current]);
    }
  }
}
