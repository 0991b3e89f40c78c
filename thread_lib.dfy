/**
 * The user-level threading library in place: the scheduler thread's slot
 * table and the library's globals, updated by the loops of ulthread_init,
 * ulthread_create, ulthread_destroy, ulthread_yield and the selection passes
 * of ulthread_schedule. Each method is proved against the function of
 * module ThreadSpec that says what it does.
 */
module ThreadLib {
  import opened Wrappers
  import opened ThreadSpec

  class Library {
    /** main_thread.uthreads */
    var threads: array<UThread>
    /** main_thread.tid and main_thread.thread_count */
    var mainTid: int
    var mainCount: int
    /** main_thread.schedalgo */
    var algo: Algorithm
    /** the global thread_count, 1 at start */
    var threadCount: int
    /** current_thread and last_yielded_thread as slot indices, -1 for NULL */
    var current: int
    var lastYielded: int

    /** The library as the program starts: a zeroed table, thread_count 1,
        no current and no last-yielded thread. */
    constructor ()
      ensures threads.Length == MAXULTHREADS && fresh(threads)
      ensures forall i :: 0 <= i < threads.Length ==> threads[i] == ZeroThread()
      ensures threadCount == 1 && current == -1 && lastYielded == -1
    {
      threads := new UThread[MAXULTHREADS](_ => ZeroThread());
      mainTid := 0;
      mainCount := 0;
      algo := ROUNDROBIN;
      threadCount := 1;
      current := -1;
      lastYielded := -1;
    }

    function State(): Sched
      reads this, threads
    {
      Sched(threads[..], mainTid, mainCount, algo, threadCount, current, lastYielded)
    }

    /** ulthread_init */
    method UlthreadInit(schedalgo: Algorithm)
      modifies this, threads
      ensures threads == old(threads)
      ensures State() == Init(old(State()), schedalgo)
    {
      var i := 0;
      while i < threads.Length
        invariant 0 <= i <= threads.Length
        invariant forall k :: 0 <= k < threads.Length ==>
                    threads[k] == if k < i then Reset(old(threads[k])) else old(threads[k])
        modifies threads
      {
        threads[i] := Reset(threads[i]);
        i := i + 1;
      }
      mainTid := 0;
      mainCount := 0;
      algo := schedalgo;
    }

    /** ulthread_create, with now standing for ctime(); it always reports
        false. */
    method UlthreadCreate(start: bv64, stack: bv64, args: seq<bv64>, priority: int, now: bv64)
      returns (r: bool)
      requires CanCreate(State(), args)
      modifies threads, this
      ensures threads == old(threads)
      ensures !r && State() == Create(old(State()), start, stack, args, priority, now)
    {
      var index := -1;
      var i := 0;
      while i < threads.Length
        invariant 0 <= i <= threads.Length
        invariant FirstFree(threads[..], 0) == FirstFree(threads[..], i)
      {
        if threads[i].state == FREE {
          index := i;
          break;
        }
        i := i + 1;
      }
      threads[index] := UThread(threadCount, priority, now, start, stack, RUNNABLE,
                                StartContext(start, stack, args));
      threadCount := threadCount + 1;
      return false;
    }

    /** ulthread_destroy, up to the context switch. */
    method UlthreadDestroy()
      requires HasCurrent(State())
      modifies threads, this
      ensures threads == old(threads)
      ensures State() == Destroy(old(State()))
    {
      lastYielded := current;
      var tid := threads[current].tid;
      var i := 0;
      while i < threads.Length
        invariant 0 <= i <= threads.Length
        invariant threads[..] == old(threads[..])
        invariant FirstTid(threads[..], tid, 0) == FirstTid(threads[..], tid, i)
        modifies threads
      {
        if threads[i].tid == tid {
          threads[i] := Reset(threads[i]);
          break;
        }
        i := i + 1;
      }
      threadCount := threadCount - 1;
    }

    /** ulthread_yield, up to the context switch, with now standing for
        ctime(). */
    method UlthreadYield(now: bv64)
      requires HasCurrent(State())
      modifies threads, this
      ensures threads == old(threads)
      ensures State() == Yield(old(State()), now)
    {
      if algo != FCFS {
        threads[current] := threads[current].(time := now);
      }
      lastYielded := current;
    }

    /** The first step of a scheduling round: with no current thread, take
        the first RUNNABLE one. */
    method PickFirst()
      modifies this
      ensures threads == old(threads)
      ensures State() == old(State()).(current := Starting(old(State())))
    {
      if current == -1 {
        var first := -1;
        var i := 0;
        while i < threads.Length
          invariant 0 <= i <= threads.Length
          invariant FirstRunnable(threads[..], 0) == FirstRunnable(threads[..], i)
        {
          if threads[i].state == RUNNABLE {
            first := i;
            break;
          }
          i := i + 1;
        }
        current := first;
      }
    }

    /** The FCFS and round-robin pass. */
    method EarliestPass()
      requires 0 <= current < threads.Length
      modifies this
      ensures threads == old(threads)
      ensures State() == old(State()).(current := EarliestUpTo(old(threads[..]), old(current), threads.Length))
    {
      var f: nat := current;
      var i := 0;
      while i < threads.Length
        invariant 0 <= i <= threads.Length
        invariant f == EarliestUpTo(threads[..], current, i)
      {
        if threads[i].state == RUNNABLE && Time(threads[i]) < Time(threads[f]) {
          f := i;
        }
        i := i + 1;
      }
      current := f;
    }

    /** The priority pass; nullTid stands for the id read through a NULL
        last_yielded_thread. */
    method HighestPass(nullTid: int)
      requires 0 <= current < threads.Length
      modifies this
      ensures threads == old(threads)
      ensures State() ==
              old(State()).(current := HighestUpTo(old(threads[..]), LastYieldedTid(old(State()), nullTid), old(current), threads.Length))
    {
      var lyTid := nullTid;
      if 0 <= lastYielded < threads.Length {
        lyTid := threads[lastYielded].tid;
      }
      var f: nat := current;
      var i := 0;
      while i < threads.Length
        invariant 0 <= i <= threads.Length
        invariant f == HighestUpTo(threads[..], lyTid, current, i)
      {
        if threads[i].state == RUNNABLE {
          if threads[f].tid == lyTid && threads[i].tid != lyTid {
            f := i;
          } else if threads[i].tid != lyTid && threads[i].priority >= threads[f].priority {
            f := i;
          }
        }
        i := i + 1;
      }
      current := f;
    }

    /** One round of ulthread_schedule, up to the context switch: the thread
        to run next becomes current. */
    method ScheduleRound(nullTid: int)
      requires CanSchedule(State())
      modifies this
      ensures threads == old(threads)
      ensures State() == Schedule(old(State()), nullTid)
    {
      PickFirst();
      if algo == FCFS || algo == ROUNDROBIN {
        EarliestPass();
      } else {
        HighestPass(nullTid);
      }
    }
  }
}
