/**
 The coroutine scheduler as a machine over values.

 Threads are numbered; 0 is the null pointer. At any time a thread is in the run list, in
 the pool of free threads, asleep, waiting for a descriptor, or in control. The machine
 says nothing of how sleepers are stored: they are a map from thread to wake-up time, and
 a pass of the main loop may wake threads of equal wake-up time in either order. Class
 `Frame.Frame` is the implementation, which keeps them in a heap and refines this machine.

 A step is what the program does between two context switches: the running coroutine
 creates a thread, or gives up control by sleeping, waiting for a descriptor or finishing,
 or the main loop makes one pass. All but the first end by choosing who runs next.
 */
module Scheduler {
  import opened Basics
  import opened SleeperHeap

  const NULL: Tid := 0
  const POOL_SIZE: nat := 1000

  datatype ThreadState = Stop | Runnable | Pending | Dead

  /** What restoring a thread's saved context would do. A thread never handed out has none. */
  datatype Context =
    | Own                    // resume the program's own thread
    | Ready(work: WorkId)    // enter HandleProcess with this work
    | Active(work: WorkId)   // resume inside Run of this work
    | Finished               // the work is done and deleted

  datatype Control = Main | Coroutine(t: Tid)

  datatype State = State(
    runnable: seq<Tid>,
    free: seq<Tid>,
    sleepers: map<Tid, nat>,
    ioWait: map<Fd, Tid>,
    running: Tid,                      // running_thread_, not cleared by a wait for a descriptor
    state: map<Tid, ThreadState>,
    context: map<Tid, Context>,
    lastLoop: nat,
    control: Control,                  // who really runs
    threads: set<Tid>,                 // all threads ever allocated, the main loop's apart
    events: multiset<Fd>,              // events registered with libevent
    clock: nat,                        // the last reading of the clock
    created: set<WorkId>,
    ran: seq<WorkId>,
    deleted: seq<WorkId>
  )

  datatype Step =
    | Create(work: WorkId, t: Tid)
    | Sleep(ms: nat, now: nat)
    | Wait(fd: Fd)
    | Finish
    | Pass(now: nat, fired: Option<Fd>, woken: seq<Tid>)

  /** The first `n` threads of the pool; thread 1 is the program's own. */
  function Pool(n: nat): (p: seq<Tid>)
    ensures |p| == n && forall i | 0 <= i < n :: p[i] == i + 2
  {
    seq(n, i => i + 2)
  }

  function Init(): State {
    State([], Pool(POOL_SIZE), map[], map[], 1, map[1 := Stop], map[1 := Own], 0,
          Coroutine(1), {1} + Elements(Pool(POOL_SIZE)), multiset{}, 0, {}, [], [])
  }

  // ----- the steps

  /** `woken` lists, in the order of their wake-up times, exactly the sleepers due at `now`. */
  ghost predicate DueInOrder(sleepers: map<Tid, nat>, now: nat, woken: seq<Tid>) {
    && NoDuplicates(woken)
    && (forall t :: t in woken <==> t in sleepers && sleepers[t] <= now)
    && (forall i, j | 0 <= i < j < |woken| :: sleepers[woken[i]] <= sleepers[woken[j]])
  }

  /** Clock readings never go backwards and fit in 63 bits; an event fires only if registered. */
  ghost predicate Enabled(s: State, st: Step) {
    match st
    case Create(w, t) =>
      && s.control.Coroutine? && w !in s.created
      && (if s.free == [] then t != NULL && t !in s.threads else t == s.free[|s.free| - 1])
    case Sleep(ms, now) => s.control.Coroutine? && ms < TWO32 && s.clock <= now < TWO63
    case Wait(fd) => s.control.Coroutine?
    case Finish => s.control.Coroutine? && s.running in s.context && s.context[s.running].Active?
    case Pass(now, fired, woken) =>
      && s.control.Main? && s.clock <= now < TWO63
      && (fired.Some? ==> fired.value in s.events)
      && DueInOrder(s.sleepers, now, woken)
  }

  /** Gives control to the front of the run list, or to the main loop if the list is empty. */
  function Schedule(s: State): State {
    if s.runnable == [] then s.(control := Main)
    else
      var t := s.runnable[0];
      Start(s.(running := t, runnable := s.runnable[1..], control := Coroutine(t)), t)
  }

  /** Restoring the context of a thread that has yet to start enters Run of its work. */
  function Start(s: State, t: Tid): State {
    if t in s.context && s.context[t].Ready? then
      s.(context := s.context[t := Active(s.context[t].work)], ran := s.ran + [s.context[t].work])
    else s
  }

  function CreateThread(s: State, w: WorkId, t: Tid): State {
    s.(free := if s.free == [] then [] else s.free[..|s.free| - 1],
       threads := s.threads + {t},
       state := s.state[t := Stop],
       context := s.context[t := Ready(w)],
       runnable := s.runnable + [t],
       created := s.created + {w})
  }

  function ParkAsleep(s: State, ms: nat, now: nat): State {
    if s.running != NULL then
      s.(sleepers := s.sleepers[s.running := now + ms], state := s.state[s.running := Stop],
         running := NULL, control := Main, clock := now)
    else s.(control := Main, clock := now)
  }

  function ParkWaiting(s: State, fd: Fd): State {
    s.(ioWait := s.ioWait[fd := s.running], events := s.events + multiset{fd},
       state := s.state[s.running := Stop], control := Main)
  }

  function Recycle(s: State): State
    requires s.running in s.context && s.context[s.running].Active?
  {
    s.(deleted := s.deleted + [s.context[s.running].work],
       context := s.context[s.running := Finished],
       state := s.state[s.running := Dead],
       free := s.free + [s.running], running := NULL, control := Main)
  }

  function Waiter(s: State, fd: Fd): Tid {
    if fd in s.ioWait then s.ioWait[fd] else NULL
  }

  function Fire(s: State, fired: Option<Fd>): State {
    match fired
    case None => s
    case Some(fd) =>
      s.(events := s.events - multiset{fd}, runnable := s.runnable + [Waiter(s, fd)], ioWait := s.ioWait - {fd})
  }

  function Wake(s: State, woken: seq<Tid>): State {
    s.(sleepers := s.sleepers - Elements(woken), runnable := s.runnable + woken,
       state := Woken(s.state, woken))
  }

  function Woken(state: map<Tid, ThreadState>, woken: seq<Tid>): map<Tid, ThreadState> {
    map t | t in state.Keys + Elements(woken) :: if t in woken then Runnable else state[t]
  }

  function Tick(s: State, now: nat): State {
    s.(lastLoop := now, clock := now)
  }

  /** The state in which a step calls the scheduler, or the whole step for `Create`. */
  function Prepared(s: State, st: Step): State
    requires Enabled(s, st)
  {
    match st
    case Create(w, t) => CreateThread(s, w, t)
    case Sleep(ms, now) => ParkAsleep(s, ms, now)
    case Wait(fd) => ParkWaiting(s, fd)
    case Finish => Recycle(s)
    case Pass(now, fired, woken) => Wake(Fire(Tick(s, now), fired), woken)
  }

  function Next(s: State, st: Step): State
    requires Enabled(s, st)
  {
    if st.Create? then Prepared(s, st) else Schedule(Prepared(s, st))
  }

  // ----- the invariant

  predicate Waits(m: map<Fd, Tid>, t: Tid) {
    exists fd :: fd in m && m[fd] == t
  }

  /** The number of places a thread is in. */
  ghost function Places(s: State, t: Tid): nat {
    One(t in s.runnable) + One(t in s.free) + One(t in s.sleepers) + One(Waits(s.ioWait, t)) + One(s.control == Coroutine(t))
  }

  /** Every thread ever allocated is in exactly one place, once; nothing else is in any. */
  ghost predicate OnePlace(s: State) {
    && NULL !in s.threads
    && NoDuplicates(s.runnable) && NoDuplicates(s.free)
    && (forall f, g | f in s.ioWait && g in s.ioWait && f != g :: s.ioWait[f] != s.ioWait[g])
    && (forall t: Tid :: Places(s, t) == One(t in s.threads))
  }

  /** The thread in control is the one `running` names. */
  ghost predicate RunningIsHolder(s: State) {
    s.control.Coroutine? ==> s.running == s.control.t
  }

  /** A thread handed out before has a context; it reads dead exactly while it is in the pool. */
  ghost predicate DeadIffPooled(s: State) {
    && s.context.Keys == s.state.Keys <= s.threads
    && (forall t | t in s.threads && t !in s.free :: t in s.context)
    && (forall t | t in s.state :: s.state[t] == Dead <==> t in s.free)
  }

  /** Contexts outside the pool are live; only a thread of the run list has yet to start. */
  ghost predicate ContextsLive(s: State) {
    && (forall t | t in s.context :: s.context[t].Finished? <==> t in s.free)
    && (forall t | t in s.context && s.context[t].Ready? :: t in s.runnable)
  }

  predicate HasWork(c: Context) {
    c.Ready? || c.Active?
  }

  /** Each work runs at most once and is deleted at most once, after it ran. */
  ghost predicate WorksOnce(s: State) {
    && NoDuplicates(s.ran) && NoDuplicates(s.deleted)
    && (forall w | w in s.deleted :: w in s.ran) && (forall w | w in s.ran :: w in s.created)
    && (forall t | t in s.context && s.context[t].Ready? :: s.context[t].work in s.created && s.context[t].work !in s.ran)
    && (forall t | t in s.context && s.context[t].Active? :: s.context[t].work in s.ran && s.context[t].work !in s.deleted)
    && (forall t, u | t in s.context && u in s.context && t != u && HasWork(s.context[t]) && HasWork(s.context[u]) ::
          s.context[t].work != s.context[u].work)
  }

  ghost predicate Carried(s: State, w: WorkId) {
    exists t | t in s.context :: HasWork(s.context[t]) && s.context[t].work == w
  }

  /** A work not yet deleted is held by a thread. */
  ghost predicate NoWorkLost(s: State) {
    forall w | w in s.created && w !in s.deleted :: Carried(s, w)
  }

  /** The registered events are those of the descriptors waited for, one each. */
  ghost predicate EventsMatch(s: State) {
    forall fd :: s.events[fd] == if fd in s.ioWait then 1 else 0
  }

  /** No deadline is 2^32 ms or more after the last reading of the clock. */
  ghost predicate DeadlinesNear(s: State) {
    s.lastLoop <= s.clock < TWO63 && forall t | t in s.sleepers :: s.sleepers[t] < s.clock + TWO32
  }

  /** What holds also between a step's preparation and the choice of who runs next. */
  ghost predicate Core(s: State) {
    && OnePlace(s) && RunningIsHolder(s) && DeadIffPooled(s) && ContextsLive(s)
    && WorksOnce(s) && NoWorkLost(s) && EventsMatch(s) && DeadlinesNear(s)
  }

  ghost predicate Inv(s: State) {
    Core(s) && (s.control.Main? ==> s.runnable == [])
  }

  /** The one condition on callers: nobody waits for a descriptor somebody waits for. */
  predicate OneWaiter(s: State, st: Step) {
    st.Wait? ==> st.fd !in s.ioWait
  }

  // ----- every step keeps the invariant

  lemma AppendOnce(s: seq<Tid>, t: Tid)
    ensures NoDuplicates(s + [t]) <==> NoDuplicates(s) && t !in s
    ensures forall u :: u in s + [t] <==> u in s || u == t
  {
    assert (s + [t])[|s|] == t;
    assert forall i | 0 <= i < |s| :: s[i] == (s + [t])[i];
  }

  lemma ConcatOnce(s: seq<Tid>, r: seq<Tid>)
    requires NoDuplicates(s) && NoDuplicates(r) && forall t | t in r :: t !in s
    ensures NoDuplicates(s + r)
    ensures forall u :: u in s + r <==> u in s || u in r
  {
    forall i, j | 0 <= i < j < |s + r| ensures (s + r)[i] != (s + r)[j] {
      if i < |s| <= j {
        assert r[j - |s|] in r;
      }
    }
  }

  lemma TailOnce(s: seq<Tid>)
    requires s != [] && NoDuplicates(s)
    ensures NoDuplicates(s[1..])
    ensures forall u :: u in s[1..] <==> u in s && u != s[0]
  {
    assert s == [s[0]] + s[1..];
  }

  lemma AddWaiter(m: map<Fd, Tid>, fd: Fd, t: Tid)
    requires fd !in m
    ensures forall u :: Waits(m[fd := t], u) <==> Waits(m, u) || u == t
  {
    var d := m[fd := t];
    assert d[fd] == t;
    assert forall f | f in m :: d[f] == m[f];
  }

  lemma RemoveWaiter(m: map<Fd, Tid>, fd: Fd)
    requires fd in m && forall f, g | f in m && g in m && f != g :: m[f] != m[g]
    ensures forall u :: Waits(m - {fd}, u) <==> Waits(m, u) && u != m[fd]
  {
    var d := m - {fd};
    assert forall f | f in m && f != fd :: f in d && d[f] == m[f];
  }

  lemma InitHolds()
    ensures Inv(Init()) && |Init().free| == 1000
  {
    var s := Init();
    assert forall t :: t in s.free ==> 2 <= t;
  }

  lemma StartRunsOnce(s: State, t: Tid)
    requires WorksOnce(s)
    ensures WorksOnce(Start(s, t))
  {
    if t in s.context && s.context[t].Ready? {
      AppendOnce(s.ran, s.context[t].work);
    }
  }

  lemma StartLosesNone(s: State, t: Tid)
    requires NoWorkLost(s)
    ensures NoWorkLost(Start(s, t))
  {
    var d := Start(s, t);
    forall v | v in d.created && v !in d.deleted ensures Carried(d, v) {
      assert Carried(s, v);
      var u :| u in s.context && HasWork(s.context[u]) && s.context[u].work == v;
      assert HasWork(d.context[u]) && d.context[u].work == v;
    }
  }

  lemma SchedulePlaces(s: State)
    requires OnePlace(s) && s.control.Main?
    ensures OnePlace(Schedule(s)) && RunningIsHolder(Schedule(s))
  {
    if s.runnable != [] {
      TailOnce(s.runnable);
    }
    forall t: Tid ensures Places(Schedule(s), t) == Places(s, t) { }
  }

  lemma ScheduleWorks(s: State)
    requires WorksOnce(s) && NoWorkLost(s)
    ensures WorksOnce(Schedule(s)) && NoWorkLost(Schedule(s))
  {
    if s.runnable != [] {
      var t := s.runnable[0];
      var m := s.(running := t, runnable := s.runnable[1..], control := Coroutine(t));
      SameWorks(s, m);
      StartRunsOnce(m, t);
      StartLosesNone(m, t);
    } else {
      SameWorks(s, Schedule(s));
    }
  }

  lemma ScheduleContexts(s: State)
    requires OnePlace(s) && DeadIffPooled(s) && ContextsLive(s) && s.control.Main?
    ensures DeadIffPooled(Schedule(s)) && ContextsLive(Schedule(s))
  {
    if s.runnable != [] {
      TailOnce(s.runnable);
      assert Places(s, s.runnable[0]) == One(s.runnable[0] in s.threads);
    }
  }

  lemma ScheduleKeeps(s: State)
    requires Core(s) && s.control.Main?
    ensures Inv(Schedule(s))
  {
    SchedulePlaces(s);
    ScheduleContexts(s);
    ScheduleWorks(s);
  }

  lemma CreateWorks(s: State, w: WorkId, t: Tid)
    requires WorksOnce(s) && NoWorkLost(s) && w !in s.created
    requires t !in s.context || s.context[t].Finished?
    ensures WorksOnce(CreateThread(s, w, t)) && NoWorkLost(CreateThread(s, w, t))
  {
    var d := CreateThread(s, w, t);
    forall v | v in d.created && v !in d.deleted ensures Carried(d, v) {
      if v == w {
        assert d.context[t].work == w;
      } else {
        assert Carried(s, v);
        var u :| u in s.context && HasWork(s.context[u]) && s.context[u].work == v;
        assert d.context[u] == s.context[u];
      }
    }
  }

  /** A thread is handed out only if its context was never made or is finished with. */
  lemma CreateReusesOnlyFinished(s: State, w: WorkId, t: Tid)
    requires Inv(s) && Enabled(s, Create(w, t))
    ensures t != NULL && (t in s.threads ==> t in s.free)
    ensures t !in s.context || s.context[t].Finished?
  {
    assert Places(s, t) == One(t in s.threads);
  }

  lemma CreatePlaces(s: State, w: WorkId, t: Tid)
    requires OnePlace(s) && Enabled(s, Create(w, t))
    ensures OnePlace(CreateThread(s, w, t))
  {
    hide NoDuplicates;
    var d := CreateThread(s, w, t);
    assert Places(s, t) == One(t in s.threads);
    AppendOnce(s.runnable, t);
    if s.free != [] {
      assert s.free == d.free + [t];
      AppendOnce(d.free, t);
    }
    forall u: Tid ensures Places(d, u) == One(u in d.threads) {
      assert Places(s, u) == One(u in s.threads);
    }
  }

  lemma CreateContexts(s: State, w: WorkId, t: Tid)
    requires OnePlace(s) && DeadIffPooled(s) && ContextsLive(s) && Enabled(s, Create(w, t))
    ensures DeadIffPooled(CreateThread(s, w, t)) && ContextsLive(CreateThread(s, w, t))
  {
    var d := CreateThread(s, w, t);
    AppendOnce(s.runnable, t);
    if s.free != [] {
      assert s.free == d.free + [t];
      AppendOnce(d.free, t);
    }
    assert Places(s, t) == One(t in s.threads);
  }

  lemma CreateKeeps(s: State, w: WorkId, t: Tid)
    requires Inv(s) && Enabled(s, Create(w, t))
    ensures Inv(CreateThread(s, w, t))
  {
    CreateReusesOnlyFinished(s, w, t);
    CreateWorks(s, w, t);
    CreatePlaces(s, w, t);
    CreateContexts(s, w, t);
  }

  lemma SameWorks(s: State, d: State)
    requires WorksOnce(s) && NoWorkLost(s)
    requires d.context == s.context && d.created == s.created && d.ran == s.ran && d.deleted == s.deleted
    ensures WorksOnce(d) && NoWorkLost(d)
  {
    assert forall w :: Carried(s, w) ==> Carried(d, w);
  }

  lemma ParkAsleepPlaces(s: State, ms: nat, now: nat)
    requires OnePlace(s) && RunningIsHolder(s) && s.control.Coroutine?
    ensures OnePlace(ParkAsleep(s, ms, now)) && s.running != NULL
  {
    var d := ParkAsleep(s, ms, now);
    assert Places(s, s.running) == One(s.running in s.threads);
    forall t: Tid ensures Places(d, t) == Places(s, t) { }
  }

  /** A parked thread keeps its context and is not dead. */
  lemma ParkedContexts(s: State, d: State)
    requires OnePlace(s) && RunningIsHolder(s) && s.control.Coroutine? && DeadIffPooled(s) && ContextsLive(s)
    requires d.state == s.state[s.running := Stop] && d.context == s.context
    requires d.threads == s.threads && d.free == s.free && d.runnable == s.runnable
    ensures DeadIffPooled(d) && ContextsLive(d)
  {
    assert Places(s, s.running) == One(s.running in s.threads);
  }

  lemma ParkAsleepKeeps(s: State, ms: nat, now: nat)
    requires Inv(s) && Enabled(s, Sleep(ms, now))
    ensures Core(ParkAsleep(s, ms, now))
  {
    hide OnePlace, DeadIffPooled, ContextsLive, WorksOnce, NoWorkLost;
    ParkAsleepPlaces(s, ms, now);
    ParkedContexts(s, ParkAsleep(s, ms, now));
    SameWorks(s, ParkAsleep(s, ms, now));
  }

  lemma ParkWaitingPlaces(s: State, fd: Fd)
    requires OnePlace(s) && RunningIsHolder(s) && s.control.Coroutine? && fd !in s.ioWait
    ensures OnePlace(ParkWaiting(s, fd))
  {
    var d := ParkWaiting(s, fd);
    AddWaiter(s.ioWait, fd, s.running);
    assert Places(s, s.running) == One(s.running in s.threads);
    forall t: Tid ensures Places(d, t) == Places(s, t) { }
  }

  lemma ParkWaitingKeeps(s: State, fd: Fd)
    requires Inv(s) && Enabled(s, Wait(fd)) && fd !in s.ioWait
    ensures Core(ParkWaiting(s, fd))
  {
    hide OnePlace, DeadIffPooled, ContextsLive, WorksOnce, NoWorkLost;
    ParkWaitingPlaces(s, fd);
    ParkedContexts(s, ParkWaiting(s, fd));
    SameWorks(s, ParkWaiting(s, fd));
  }

  lemma RecycleWorks(s: State)
    requires WorksOnce(s) && NoWorkLost(s) && s.running in s.context && s.context[s.running].Active?
    ensures WorksOnce(Recycle(s)) && NoWorkLost(Recycle(s))
  {
    var d := Recycle(s);
    forall v | v in d.created && v !in d.deleted ensures Carried(d, v) {
      assert Carried(s, v);
      var u :| u in s.context && HasWork(s.context[u]) && s.context[u].work == v;
      assert d.context[u] == s.context[u];
    }
  }

  lemma RecyclePlaces(s: State)
    requires OnePlace(s) && RunningIsHolder(s) && Enabled(s, Finish)
    ensures OnePlace(Recycle(s))
  {
    var d := Recycle(s);
    AppendOnce(s.free, s.running);
    assert Places(s, s.running) == One(s.running in s.threads);
    forall t: Tid ensures Places(d, t) == Places(s, t) { }
  }

  lemma RecycleContexts(s: State)
    requires DeadIffPooled(s) && ContextsLive(s) && Enabled(s, Finish)
    ensures DeadIffPooled(Recycle(s)) && ContextsLive(Recycle(s))
  {
    AppendOnce(s.free, s.running);
  }

  lemma RecycleKeeps(s: State)
    requires Inv(s) && Enabled(s, Finish)
    ensures Core(Recycle(s))
  {
    hide OnePlace, DeadIffPooled, ContextsLive, WorksOnce, NoWorkLost;
    RecyclePlaces(s);
    RecycleContexts(s);
    RecycleWorks(s);
  }

  lemma FirePlaces(s: State, fd: Fd)
    requires OnePlace(s) && fd in s.ioWait
    ensures OnePlace(Fire(s, Some(fd)))
  {
    var d := Fire(s, Some(fd));
    var t := s.ioWait[fd];
    assert Waits(s.ioWait, t) && Places(s, t) == One(t in s.threads);
    AppendOnce(s.runnable, t);
    RemoveWaiter(s.ioWait, fd);
    forall u: Tid ensures Places(d, u) == Places(s, u) { }
  }

  lemma LongerRunList(s: State, d: State)
    requires DeadIffPooled(s) && ContextsLive(s)
    requires d.state == s.state && d.context == s.context && d.threads == s.threads && d.free == s.free
    requires s.runnable <= d.runnable
    ensures DeadIffPooled(d) && ContextsLive(d)
  {
  }

  lemma FireKeeps(s: State, fired: Option<Fd>)
    requires Core(s) && s.control.Main? && (fired.Some? ==> fired.value in s.events)
    ensures Core(Fire(s, fired))
    ensures Fire(s, fired).sleepers == s.sleepers
  {
    hide OnePlace, DeadIffPooled, ContextsLive, WorksOnce, NoWorkLost;
    if fired.Some? {
      FirePlaces(s, fired.value);
      LongerRunList(s, Fire(s, fired));
      SameWorks(s, Fire(s, fired));
    }
  }

  lemma WakePlaces(s: State, woken: seq<Tid>)
    requires OnePlace(s) && NoDuplicates(woken) && forall t | t in woken :: t in s.sleepers
    ensures OnePlace(Wake(s, woken))
  {
    var d := Wake(s, woken);
    forall t | t in woken ensures t !in s.runnable {
      assert Places(s, t) == One(t in s.threads);
    }
    ConcatOnce(s.runnable, woken);
    forall t: Tid ensures Places(d, t) == Places(s, t) { }
  }

  lemma WakeContexts(s: State, woken: seq<Tid>)
    requires OnePlace(s) && DeadIffPooled(s) && ContextsLive(s) && forall t | t in woken :: t in s.sleepers
    ensures DeadIffPooled(Wake(s, woken)) && ContextsLive(Wake(s, woken))
  {
    forall t | t in woken ensures t in s.threads && t !in s.free {
      assert Places(s, t) == One(t in s.threads);
    }
  }

  lemma WakeKeeps(s: State, woken: seq<Tid>)
    requires Core(s) && s.control.Main?
    requires NoDuplicates(woken) && forall t | t in woken :: t in s.sleepers
    ensures Core(Wake(s, woken))
  {
    hide OnePlace, DeadIffPooled, ContextsLive, WorksOnce, NoWorkLost;
    WakePlaces(s, woken);
    WakeContexts(s, woken);
    SameWorks(s, Wake(s, woken));
  }

  lemma TickKeeps(s: State, now: nat)
    requires Core(s) && s.clock <= now < TWO63
    ensures Core(Tick(s, now))
  {
    hide WorksOnce, NoWorkLost;
    SameWorks(s, Tick(s, now));
    forall t: Tid ensures Places(Tick(s, now), t) == Places(s, t) { }
  }

  lemma PreparedKeeps(s: State, st: Step)
    requires Inv(s) && Enabled(s, st) && OneWaiter(s, st)
    ensures Core(Prepared(s, st)) && (!st.Create? ==> Prepared(s, st).control.Main?)
  {
    match st
    case Create(w, t) => CreateKeeps(s, w, t);
    case Sleep(ms, now) => ParkAsleepKeeps(s, ms, now);
    case Wait(fd) => ParkWaitingKeeps(s, fd);
    case Finish => RecycleKeeps(s);
    case Pass(now, fired, woken) =>
      TickKeeps(s, now);
      FireKeeps(Tick(s, now), fired);
      WakeKeeps(Fire(Tick(s, now), fired), woken);
  }

  lemma NextKeeps(s: State, st: Step)
    requires Inv(s) && Enabled(s, st) && OneWaiter(s, st)
    ensures Inv(Next(s, st))
  {
    if st.Create? {
      CreateKeeps(s, st.work, st.t);
    } else {
      PreparedKeeps(s, st);
      ScheduleKeeps(Prepared(s, st));
    }
  }
}
