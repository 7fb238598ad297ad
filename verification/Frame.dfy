/**
 The scheduler as the program implements it: lists, a vector kept as a heap, and maps,
 updated in place. Each method is one step of the machine of module `Scheduler`, or a
 part of one, and is proved to do what the machine does.

 A method that switches contexts ends at the switch. The caller's clock readings and the
 events that fire are parameters.
 */
module Frame {
  import opened Basics
  import opened SleeperHeap
  import opened Scheduler
  import SchedulerRuns
  import opened LoopTimeout

  /** The deadlines of the sleeping threads. */
  function Deadlines(pending: seq<Tid>, wakeup: map<Tid, nat>): (m: map<Tid, nat>)
    requires Keyed(pending, wakeup)
  {
    map t | t in pending :: wakeup[t]
  }

  /** Milliseconds as seconds and microseconds. */
  lemma SplitMillis(ms: nat)
    requires ms < TWO64
    ensures var sec := ms / 1000; var usec := UInt64(ms - sec * 1000) * 1000;
            0 <= usec < 1_000_000 && 1_000_000 * sec + usec == 1000 * ms
  {
  }

  lemma EmptyHeap()
    ensures var none: map<Tid, nat> := map[];
            Keyed([], none) && NoDuplicates<Tid>([]) && IsHeap([], none) && Deadlines([], none) == none
  {
  }

  lemma PoolIsBelow(n: nat)
    ensures forall t | t in {1} + Elements(Pool(n)) :: t < n + 2
  {
  }

  class Frame {
    var runnable: seq<Tid>            // thread_runnable_
    var free: seq<Tid>                // thread_free_
    var pending: seq<Tid>             // thread_pending_, a heap
    var wakeup: map<Tid, nat>         // wakeup_ts_ of each thread
    var state: map<Tid, ThreadState>  // state_ of each thread
    var context: map<Tid, Context>    // uc_ of each thread
    var ioWait: map<Fd, Tid>          // io_wait_map_
    var running: Tid                  // running_thread_
    var lastLoop: nat                 // last_loop_ts_
    var nextTid: Tid                  // the next thread the allocator yields
    ghost var control: Control
    ghost var threads: set<Tid>
    ghost var events: multiset<Fd>
    ghost var clock: nat
    ghost var created: set<WorkId>
    ghost var ran: seq<WorkId>
    ghost var deleted: seq<WorkId>

    /** The vector is a heap on the wake-up times, without repetition. */
    ghost predicate HeapOk()
      reads this
    {
      && Keyed(pending, wakeup) && NoDuplicates(pending) && IsHeap(pending, wakeup)
      && NULL < nextTid && forall t | t in threads :: t < nextTid
    }

    /** The machine's view: the heap is forgotten, leaving threads and their deadlines. */
    ghost function View(): State
      requires Keyed(pending, wakeup)
      reads this
    {
      State(runnable, free, Deadlines(pending, wakeup), ioWait, running, state, context, lastLoop,
            control, threads, events, clock, created, ran, deleted)
    }

    ghost predicate Valid()
      reads this
    {
      HeapOk() && Inv(View())
    }

    constructor ()
      ensures Valid() && View() == Init()
    {
      runnable, pending, ioWait, wakeup := [], [], map[], map[];
      running, state, context, lastLoop := 1, map[1 := Stop], map[1 := Own], 0;
      control, events, clock, created, ran, deleted := Coroutine(1), multiset{}, 0, {}, [], [];
      free, nextTid := [], 2;
      new;
      hide Inv, Elements, Pool, Keyed, NoDuplicates, IsHeap, Deadlines;
      EmptyHeap();
      ghost var s := View();
      assert s == Init().(free := s.free, threads := s.threads);
      FillPool();
      InitHolds();
    }

    method FillPool()
      requires free == [] && nextTid == 2
      modifies this`free, this`nextTid, this`threads
      ensures free == Pool(POOL_SIZE) && nextTid == POOL_SIZE + 2
      ensures threads == {1} + Elements(Pool(POOL_SIZE)) && forall t | t in threads :: t < nextTid
    {
      for i := 0 to POOL_SIZE
        invariant nextTid == i + 2 && free == Pool(i)
      {
        free := free + [nextTid];
        nextTid := nextTid + 1;
      }
      threads := {1} + Elements(free);
      PoolIsBelow(POOL_SIZE);
    }

    // ----- creating threads

    ghost predicate PoolOk()
      reads this
    {
      forall i | 0 <= i < |free| :: NULL < free[i] < nextTid
    }

    method AllocNewThread() returns (t: Tid)
      requires HeapOk() && PoolOk()
      modifies this`free, this`nextTid, this`state
      ensures old(nextTid) <= nextTid && NULL < t < nextTid
      ensures if old(free) == [] then t !in threads && free == [] && state == old(state)
              else old(free) == free + [t] && state == old(state)[t := Stop]
    {
      if free == [] {
        t := nextTid;
        nextTid := nextTid + 1;
        return;
      }
      t := free[|free| - 1];
      free := free[..|free| - 1];
      state := state[t := Stop];
    }

    /** Gives a thread its context and puts it at the end of the run list. */
    method Enroll(t: Tid, w: WorkId)
      requires HeapOk() && NULL < t < nextTid
      modifies this`threads, this`state, this`context, this`runnable, this`created
      ensures HeapOk() && View() == old(View()).(threads := old(threads) + {t}, state := old(state)[t := Stop],
                context := old(context)[t := Ready(w)], runnable := old(runnable) + [t], created := old(created) + {w})
    {
      hide Keyed, NoDuplicates, IsHeap, Deadlines;
      ghost var s := View();
      assert s.runnable == runnable;
      threads := threads + {t};
      state := state[t := Stop];
      context := context[t := Ready(w)];
      runnable := runnable + [t];
      created := created + {w};
    }

    /** Takes a thread, gives it its context and puts it at the end of the run list. */
    method StartThread(w: WorkId) returns (t: Tid)
      requires HeapOk() && PoolOk()
      modifies this`free, this`nextTid, this`threads, this`state, this`context, this`runnable, this`created
      ensures HeapOk() && View() == Scheduler.CreateThread(old(View()), w, t)
      ensures if old(free) == [] then t != NULL && t !in old(threads) else t == old(free)[|old(free)| - 1]
    {
      hide Keyed, NoDuplicates, IsHeap, Deadlines, PoolOk;
      ghost var s := View();
      assert s.runnable == runnable;
      t := AllocNewThread();
      assert state[t := Stop] == s.state[t := Stop];
      Enroll(t, w);
    }

    method CreateThread(w: WorkId) returns (t: Tid)
      requires Valid() && control.Coroutine? && w !in created
      modifies this
      ensures Valid() && Enabled(old(View()), Create(w, t))
      ensures View() == Next(old(View()), Create(w, t))
    {
      ghost var s := View();
      forall i | 0 <= i < |free| ensures free[i] in threads {
        assert free[i] in s.free && Places(s, free[i]) == One(free[i] in s.threads);
      }
      t := StartThread(w);
      NextKeeps(s, Create(w, t));
    }

    // ----- choosing who runs next

    method RestoreContext(t: Tid)
      modifies this`context, this`control, this`ran
      ensures control == Coroutine(t)
      ensures if t in old(context) && old(context)[t].Ready?
              then context == old(context)[t := Active(old(context)[t].work)] && ran == old(ran) + [old(context)[t].work]
              else context == old(context) && ran == old(ran)
    {
      control := Coroutine(t);
      if t in context && context[t].Ready? {
        ran := ran + [context[t].work];
        context := context[t := Active(context[t].work)];
      }
    }

    method Schedule()
      requires HeapOk()
      modifies this`running, this`runnable, this`context, this`control, this`ran
      ensures HeapOk() && View() == Scheduler.Schedule(old(View()))
    {
      hide Keyed, NoDuplicates, IsHeap, Deadlines;
      ghost var s := View();
      assert s.runnable == runnable;
      if runnable == [] {
        control := Main;
      } else {
        running := runnable[0];
        runnable := runnable[1..];
        RestoreContext(running);
      }
    }

    // ----- giving up control

    method PendThread(t: Tid)
      requires HeapOk() && t in wakeup && t !in pending
      modifies this`pending
      ensures HeapOk() && multiset(pending) == multiset(old(pending)) + multiset{t}
      ensures Deadlines(pending, wakeup) == Deadlines(old(pending), wakeup)[t := wakeup[t]]
    {
      pending := pending + [t];
      assert pending[..|pending| - 1] == old(pending);
      ghost var grown := pending;
      AppendOnce(old(pending), t);
      pending := PushHeap(pending, wakeup);
      PermutationKeeps(grown, pending);
    }

    /** Puts a thread to sleep. */
    method PutToSleep(t: Tid, deadline: nat)
      requires HeapOk() && t !in pending
      modifies this`wakeup, this`state, this`pending
      ensures HeapOk() && state == old(state)[t := Stop]
      ensures Deadlines(pending, wakeup) == Deadlines(old(pending), old(wakeup))[t := deadline]
    {
      KeyOutside(pending, wakeup, t, deadline);
      wakeup := wakeup[t := deadline];
      state := state[t := Stop];
      PendThread(t);
    }

    /** Puts the running thread to sleep, if there is one. */
    method ParkRunning(ms: nat, now: nat)
      requires HeapOk() && running !in pending
      modifies this`wakeup, this`state, this`pending, this`running, this`control, this`clock
      ensures HeapOk() && View() == ParkAsleep(old(View()), ms, now)
    {
      hide Keyed, NoDuplicates, IsHeap, Deadlines;
      ghost var s := View();
      assert s.runnable == runnable;
      if running != NULL {
        PutToSleep(running, now + ms);
        assert View() == s.(sleepers := s.sleepers[running := now + ms], state := s.state[running := Stop]);
        running := NULL;
      }
      clock, control := now, Main;
    }

    method Sleep(ms: nat, now: nat)
      requires Valid() && control.Coroutine? && ms < TWO32 && clock <= now < TWO63
      modifies this
      ensures Valid() && View() == Next(old(View()), Step.Sleep(ms, now))
    {
      assert Places(View(), running) == 1;
      NextKeeps(View(), Step.Sleep(ms, now));
      ParkRunning(ms, now);
      Schedule();
    }

    /** Registers the running thread as the waiter of a descriptor. */
    method ParkForEvent(fd: Fd)
      requires HeapOk()
      modifies this`events, this`ioWait, this`state, this`control
      ensures HeapOk() && View() == ParkWaiting(old(View()), fd)
    {
      hide Keyed, NoDuplicates, IsHeap, Deadlines;
      ghost var s := View();
      assert s.runnable == runnable;
      events := events + multiset{fd};
      ioWait := ioWait[fd := running];
      state := state[running := Stop];
      control := Main;
    }

    /** The waiting part of accept, connect, send, recv and recvfrom. */
    method WaitFor(fd: Fd)
      requires Valid() && control.Coroutine?
      modifies this
      ensures HeapOk() && View() == Next(old(View()), Wait(fd))
      ensures Valid() <==> fd !in old(ioWait)
    {
      hide Inv, Keyed, NoDuplicates, IsHeap, Deadlines, ParkWaiting, Scheduler.Schedule;
      SchedulerRuns.KeptExactlyByOneWaiter(View(), Wait(fd));
      ParkForEvent(fd);
      Schedule();
    }

    method RecycleRunningThread()
      modifies this`state, this`free, this`running
      ensures state == old(state)[old(running) := Dead] && free == old(free) + [old(running)] && running == NULL
    {
      state := state[running := Dead];
      free := free + [running];
      running := NULL;
    }

    /** Deletes the work of the running thread, whose Run returned, and pools the thread. */
    method EndWork()
      requires HeapOk() && running in context && context[running].Active?
      modifies this`deleted, this`context, this`state, this`free, this`running, this`control
      ensures HeapOk() && View() == Recycle(old(View()))
    {
      hide Keyed, NoDuplicates, IsHeap, Deadlines;
      ghost var s := View();
      assert s.runnable == runnable;
      deleted := deleted + [context[running].work];
      context := context[running := Finished];
      RecycleRunningThread();
      control := Main;
    }

    /** The end of HandleProcess. */
    method FinishWork()
      requires Valid() && control.Coroutine? && running in context && context[running].Active?
      modifies this
      ensures Valid() && View() == Next(old(View()), Finish)
    {
      NextKeeps(View(), Finish);
      EndWork();
      Schedule();
    }

    // ----- the main loop

    method UpdateLoopTimestamp(now: nat)
      requires HeapOk()
      modifies this`lastLoop, this`clock
      ensures HeapOk() && View() == Tick(old(View()), now)
    {
      hide Keyed, NoDuplicates, IsHeap, Deadlines;
      ghost var s := View();
      assert s.runnable == runnable;
      clock := now;
      lastLoop := now;
    }

    /** How long the event loop may block, normalised. With no sleepers it is 100 ms. Otherwise it is the time to the
        earliest deadline exactly if that is below 2^31 ms. */
    method GetEventLoopTimeout() returns (sec: int, usec: int)
      requires HeapOk() && DeadlinesNear(View()) && lastLoop == clock
      ensures 0 <= sec && 0 <= usec < 1_000_000 && 1_000_000 * sec + usec == Timeout(View().sleepers, lastLoop)
      ensures View().sleepers == map[] ==> sec == 0 && usec == 100_000
      ensures View().sleepers != map[] ==>
                (1_000_000 * sec + usec == 1000 * Ahead(Soonest(View().sleepers), lastLoop) <==> Soonest(View().sleepers) < lastLoop + TWO31)
    {
      hide Int32, UInt64, NoDuplicates, IsHeap, Ahead;
      sec, usec := 0, 100_000;
      if pending == [] {
        assert View().sleepers == map[];
      } else {
        var mint := pending[0];
        FrontIsSoonest(pending, wakeup);
        TimeoutExactly(View().sleepers, lastLoop);
        if wakeup[mint] < lastLoop {
          usec := 0;
          return;
        }
        var delta := Int32(wakeup[mint] - lastLoop);
        SplitMillis(UInt64(delta));
        sec := UInt64(delta) / 1000;
        usec := UInt64(UInt64(delta) - sec * 1000) * 1000;
      }
    }

    /** The callback of an event, which libevent calls only for a registered one. */
    method SocketReadOrWrite(fd: Fd)
      requires HeapOk() && fd in events
      modifies this`events, this`runnable, this`ioWait
      ensures HeapOk() && View() == Fire(old(View()), Some(fd))
    {
      hide Keyed, NoDuplicates, IsHeap, Deadlines;
      ghost var s := View();
      assert s.runnable == runnable;
      events := events - multiset{fd};
      runnable := runnable + [if fd in ioWait then ioWait[fd] else NULL];
      ioWait := ioWait - {fd};
    }

    method PopPendingTop() returns (t: Tid)
      requires HeapOk() && pending != []
      modifies this`pending
      ensures HeapOk() && multiset(old(pending)) == multiset(pending) + multiset{t}
      ensures t == old(pending)[0] && t in wakeup && t !in pending && forall u | u in pending :: wakeup[t] <= wakeup[u]
    {
      forall i: nat | i < |pending| ensures wakeup[pending[0]] <= wakeup[pending[i]] {
        FrontIsEarliest(pending, wakeup, i);
      }
      var moved := PopHeap(pending, wakeup);
      PermutationKeeps(pending, moved);
      t := moved[|moved| - 1];
      pending := moved[..|moved| - 1];
      assert moved == pending + [t];
      AppendOnce(pending, t);
      assert forall u | u in pending :: u in moved;
    }

    /** Moves the earliest sleeper to the run list. */
    method WakeTop() returns (n: Tid)
      requires HeapOk() && pending != []
      modifies this`pending, this`wakeup, this`state, this`runnable
      ensures HeapOk() && multiset(old(pending)) == multiset(pending) + multiset{n}
      ensures n == old(pending)[0] && n in old(wakeup)
      ensures n !in pending && forall u | u in pending :: u in old(pending) && u in old(wakeup) && old(wakeup)[n] <= old(wakeup)[u]
      ensures wakeup == old(wakeup)[n := 0] && state == old(state)[n := Runnable] && runnable == old(runnable) + [n]
    {
      n := PopPendingTop();
      PermutationKeeps(old(pending), pending + [n]);
      KeyOutside(pending, wakeup, n, 0);
      wakeup := wakeup[n := 0];
      state := state[n := Runnable];
      runnable := runnable + [n];
    }

    /** Moves to the run list, earliest first, the sleepers due at the loop's timestamp. */
    method WakeDue() returns (ghost woken: seq<Tid>)
      requires HeapOk()
      modifies this`pending, this`wakeup, this`state, this`runnable
      ensures HeapOk() && DueInOrder(Deadlines(old(pending), old(wakeup)), lastLoop, woken)
      ensures Deadlines(pending, wakeup) == Deadlines(old(pending), old(wakeup)) - Elements(woken)
      ensures runnable == old(runnable) + woken && state == Woken(old(state), woken)
    {
      hide NoDuplicates, IsHeap, InTurn, Woken, DueInOrder, Deadlines, Elements;
      woken := [];
      var nowms := lastLoop;
      InTurnAtFirst(wakeup, pending, nowms);
      WokenAtFirst(state);
      if pending != [] {
        var n := pending[0];
        var sz := |pending|;
        while sz > 0 && wakeup[n] <= nowms
          invariant HeapOk() && sz == |pending| && (pending != [] ==> n == pending[0])
          invariant multiset(pending) + multiset(woken) == multiset(old(pending))
          invariant forall t | t in pending :: t in old(wakeup) && wakeup[t] == old(wakeup)[t]
          invariant InTurn(old(wakeup), woken, pending, nowms)
          invariant runnable == old(runnable) + woken
          invariant state == Woken(old(state), woken)
        {
          sz := sz - 1;
          ghost var before := pending;
          n := WakeTop();
          InTurnStep(old(wakeup), woken, before, pending, n, nowms);
          WokenStep(old(state), woken, n);
          woken := woken + [n];
          if pending != [] {
            n := pending[0];
          }
        }
      }
      AllDueWoken(old(pending), old(wakeup), woken, pending, wakeup, nowms);
    }

    /** Wakes exactly the due sleepers, as the machine does. */
    method WakeupPendingThread() returns (ghost woken: seq<Tid>)
      requires HeapOk()
      modifies this`pending, this`wakeup, this`state, this`runnable
      ensures HeapOk() && DueInOrder(old(View()).sleepers, lastLoop, woken)
      ensures View() == Wake(old(View()), woken)
    {
      hide Keyed, NoDuplicates, IsHeap, Woken, DueInOrder, Deadlines, Elements;
      ghost var s := View();
      assert s.runnable == runnable;
      woken := WakeDue();
    }

    /** The event loop: its callbacks run until one breaks it, as each does, or it times out. */
    method EventLoop(sec: int, usec: int, fired: Option<Fd>)
      requires HeapOk() && (fired.Some? ==> fired.value in events)
      modifies this`events, this`runnable, this`ioWait
      ensures HeapOk() && View() == Fire(old(View()), fired)
    {
      hide Keyed, NoDuplicates, IsHeap, Deadlines;
      if fired.Some? {
        SocketReadOrWrite(fired.value);
      }
    }

    /** One pass of the main loop up to the choice of who runs next. */
    method CollectReady(now: nat, fired: Option<Fd>) returns (ghost woken: seq<Tid>, sec: int, usec: int)
      requires HeapOk() && clock <= now && (fired.Some? ==> fired.value in events)
      requires DeadlinesNear(View()) && now < TWO63
      modifies this`lastLoop, this`clock, this`events, this`runnable, this`ioWait, this`pending, this`wakeup, this`state
      ensures HeapOk() && DueInOrder(old(View()).sleepers, now, woken)
      ensures View() == Wake(Fire(Tick(old(View()), now), fired), woken)
      ensures 0 <= sec && 0 <= usec < 1_000_000 && 1_000_000 * sec + usec == Timeout(old(View()).sleepers, now)
    {
      hide Keyed, NoDuplicates, IsHeap, Deadlines, Timeout;
      UpdateLoopTimestamp(now);
      sec, usec := GetEventLoopTimeout();
      EventLoop(sec, usec, fired);
      woken := WakeupPendingThread();
    }

    /** A whole pass. The event loop is given the timeout of the sleepers it finds. */
    method MainThreadLoopPass(now: nat, fired: Option<Fd>) returns (ghost woken: seq<Tid>, sec: int, usec: int)
      requires Valid() && control.Main? && clock <= now < TWO63 && (fired.Some? ==> fired.value in events)
      modifies this
      ensures Valid() && Enabled(old(View()), Pass(now, fired, woken))
      ensures View() == Next(old(View()), Pass(now, fired, woken))
      ensures 0 <= sec && 0 <= usec < 1_000_000 && 1_000_000 * sec + usec == Timeout(old(View()).sleepers, now)
    {
      ghost var s := View();
      woken, sec, usec := CollectReady(now, fired);
      assert Enabled(s, Pass(now, fired, woken));
      NextKeeps(s, Pass(now, fired, woken));
      Schedule();
    }
  }

  /** `woken` is due and in order of deadline, before all of `rest`. */
  ghost predicate InTurn(key: map<Tid, nat>, woken: seq<Tid>, rest: seq<Tid>, now: nat) {
    && Keyed(woken, key) && Keyed(rest, key)
    && (forall i | 0 <= i < |woken| :: key[woken[i]] <= now)
    && (forall i, j | 0 <= i < j < |woken| :: key[woken[i]] <= key[woken[j]])
    && (forall i, j | 0 <= i < |woken| && 0 <= j < |rest| :: key[woken[i]] <= key[rest[j]])
  }

  lemma InTurnAtFirst(key: map<Tid, nat>, rest: seq<Tid>, now: nat)
    requires Keyed(rest, key)
    ensures InTurn(key, [], rest, now)
  {
  }

  lemma WokenAtFirst(state: map<Tid, ThreadState>)
    ensures Woken(state, []) == state
  {
  }

  lemma WokenStep(state: map<Tid, ThreadState>, woken: seq<Tid>, n: Tid)
    ensures Woken(state, woken + [n]) == Woken(state, woken)[n := Runnable]
  {
  }

  lemma InTurnStep(key: map<Tid, nat>, woken: seq<Tid>, before: seq<Tid>, rest: seq<Tid>, n: Tid, now: nat)
    requires InTurn(key, woken, before, now) && multiset(before) == multiset(rest) + multiset{n}
    requires n in key && key[n] <= now
    requires forall t | t in rest :: t in key && key[n] <= key[t]
    ensures InTurn(key, woken + [n], rest, now)
  {
    PermutationKeeps(rest + [n], before);
    assert forall i | 0 <= i < |rest| :: rest[i] in rest + [n];
    assert n in rest + [n];
  }

  /** When the front of the rest is late, the woken threads are exactly those due. */
  lemma AllDueWoken(s: seq<Tid>, key: map<Tid, nat>, woken: seq<Tid>, rest: seq<Tid>, key': map<Tid, nat>, now: nat)
    requires Keyed(s, key) && NoDuplicates(s) && multiset(rest) + multiset(woken) == multiset(s)
    requires InTurn(key, woken, rest, now)
    requires Keyed(rest, key') && IsHeap(rest, key') && forall t | t in rest :: t in key && key[t] == key'[t]
    requires rest == [] || now < key'[rest[0]]
    ensures DueInOrder(Deadlines(s, key), now, woken)
    ensures Deadlines(rest, key') == Deadlines(s, key) - Elements(woken)
  {
    forall i: nat | i < |rest| ensures now < key[rest[i]] {
      FrontIsEarliest(rest, key', i);
    }
    SplitOnce(s, rest, woken);
  }

  lemma SplitOnce(s: seq<Tid>, a: seq<Tid>, b: seq<Tid>)
    requires NoDuplicates(s) && multiset(a) + multiset(b) == multiset(s)
    ensures NoDuplicates(b) && (forall t :: t in s <==> t in a || t in b) && forall t | t in b :: t !in a
  {
    PermutationKeeps(s, a + b);
    assert forall i | 0 <= i < |b| :: (a + b)[|a| + i] == b[i];
    forall t | t in b ensures t !in a {
      var j :| 0 <= j < |b| && b[j] == t;
      assert forall i | 0 <= i < |a| :: a[i] == (a + b)[i] && (a + b)[i] != (a + b)[|a| + j];
    }
  }

  /** Changing the key of a thread outside a heap leaves it a heap. */
  lemma KeyOutside(s: seq<Tid>, key: map<Tid, nat>, t: Tid, k: nat)
    requires Keyed(s, key) && IsHeap(s, key) && t !in s
    ensures Keyed(s, key[t := k]) && IsHeap(s, key[t := k])
    ensures Deadlines(s, key[t := k]) == Deadlines(s, key)
  {
    var m := key[t := k];
    forall i | 0 < i < |s| ensures InOrder(s, m, i) {
      assert InOrder(s, key, i);
    }
  }

  /** The front of the heap has the earliest deadline. */
  lemma FrontIsSoonest(s: seq<Tid>, key: map<Tid, nat>)
    requires Keyed(s, key) && IsHeap(s, key) && s != []
    ensures s[0] in Deadlines(s, key) && Soonest(Deadlines(s, key)) == key[s[0]]
  {
    assert s[0] in Deadlines(s, key);
    forall i: nat | i < |s| ensures key[s[0]] <= key[s[i]] {
      FrontIsEarliest(s, key, i);
    }
  }
}
