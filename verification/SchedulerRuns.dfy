/**
 What holds along every run of the scheduler. A run is a sequence of states joined by
 steps; it is disciplined if no coroutine ever waits for a descriptor another waits for.
 */
module SchedulerRuns {
  import opened Basics
  import opened SleeperHeap
  import opened Scheduler

  type Run = Trace<State, Step>

  ghost predicate IsRun(r: Run) {
    && |r.states| == |r.steps| + 1
    && forall i {:trigger r.steps[i]} | 0 <= i < |r.steps| ::
         Enabled(r.states[i], r.steps[i]) && r.states[i + 1] == Next(r.states[i], r.steps[i])
  }

  ghost predicate Disciplined(r: Run)
    requires IsRun(r)
  {
    forall i {:trigger r.steps[i]} | 0 <= i < |r.steps| :: OneWaiter(r.states[i], r.steps[i])
  }

  /** A disciplined run from a good state, for instance from the initial one. */
  ghost predicate GoodRun(r: Run) {
    IsRun(r) && Disciplined(r) && Inv(r.states[0])
  }

  /** Every state of a good run is good: no thread is lost, owned twice or null. */
  lemma {:induction false} EveryStateIsGood(r: Run, i: nat)
    requires GoodRun(r) && i < |r.states|
    ensures Inv(r.states[i]) && NULL !in r.states[i].runnable
  {
    hide Next, Enabled, Inv;
    if i > 0 {
      EveryStateIsGood(r, i - 1);
      NextKeeps(r.states[i - 1], r.steps[i - 1]);
    }
    NullIsNowhere(r.states[i]);
  }

  lemma NullIsNowhere(s: State)
    requires Inv(s)
    ensures NULL !in s.runnable
  {
    assert Places(s, NULL) == One(NULL in s.threads);
  }

  /** Choosing who runs next changes neither sleepers, waiters nor the clock. */
  lemma NextAsPrepared(s: State, st: Step)
    requires Enabled(s, st)
    ensures Next(s, st).sleepers == Prepared(s, st).sleepers && Next(s, st).ioWait == Prepared(s, st).ioWait
    ensures Next(s, st).clock == Prepared(s, st).clock
  {
    hide Prepared, Enabled;
  }

  // ----- exactly when the discipline matters

  /** A second wait on a descriptor drops the first waiter out of every place. */
  lemma SecondWaiterLosesFirst(s: State, fd: Fd)
    requires Inv(s) && Enabled(s, Wait(fd)) && fd in s.ioWait
    ensures s.ioWait[fd] in s.threads && Places(Next(s, Wait(fd)), s.ioWait[fd]) == 0
    ensures Next(s, Wait(fd)).threads == s.threads && Next(s, Wait(fd)).events[fd] == 2
  {
    hide WorksOnce, NoWorkLost, DeadIffPooled, ContextsLive, DeadlinesNear, Next;
    var u := s.ioWait[fd];
    assert Waits(s.ioWait, u) && Places(s, u) == 1;
    var d := Next(s, Wait(fd));
    OneWait(s, fd);
    assert forall t | t in d.runnable :: t in s.runnable;
    assert !Waits(d.ioWait, u) by {
      forall f | f in d.ioWait ensures d.ioWait[f] != u { }
    }
  }

  /** The invariant survives a step exactly if the step waits for no descriptor already waited for. */
  lemma KeptExactlyByOneWaiter(s: State, st: Step)
    requires Inv(s) && Enabled(s, st)
    ensures Inv(Next(s, st)) <==> OneWaiter(s, st)
  {
    if OneWaiter(s, st) {
      NextKeeps(s, st);
    } else {
      SecondWaiterLosesFirst(s, st.fd);
      assert Places(Next(s, st), s.ioWait[st.fd]) != One(s.ioWait[st.fd] in Next(s, st).threads);
    }
  }

  lemma LostWhilePreparing(s: State, st: Step, u: Tid)
    requires Enabled(s, st) && RunningIsHolder(s)
    requires u != NULL && u in s.threads && Places(s, u) == 0
    ensures u in Prepared(s, st).threads && Places(Prepared(s, st), u) == 0
  {
    var p := Prepared(s, st);
    assert !Waits(p.ioWait, u) by {
      forall f | f in p.ioWait ensures p.ioWait[f] != u { }
    }
    match st
    case Pass(now, fired, woken) =>
      assert u !in woken;
    case _ =>
  }

  lemma LostWhileScheduling(p: State, u: Tid)
    requires u in p.threads && Places(p, u) == 0
    ensures RunningIsHolder(Schedule(p)) && u in Schedule(p).threads && Places(Schedule(p), u) == 0
  {
    assert u !in p.runnable && !Waits(p.ioWait, u);
    if p.runnable != [] {
      assert p.runnable[0] != u && forall t | t in p.runnable[1..] :: t in p.runnable;
    }
  }

  lemma LostStaysLost(s: State, st: Step, u: Tid)
    requires Enabled(s, st) && RunningIsHolder(s)
    requires u != NULL && u in s.threads && Places(s, u) == 0
    ensures RunningIsHolder(Next(s, st)) && u in Next(s, st).threads && Places(Next(s, st), u) == 0
  {
    LostWhilePreparing(s, st, u);
    if !st.Create? {
      LostWhileScheduling(Prepared(s, st), u);
    }
  }

  /** A thread out of every place never runs again, whatever the others do. */
  lemma {:induction false} LostForever(r: Run, i: nat, u: Tid)
    requires IsRun(r) && i < |r.states| && RunningIsHolder(r.states[0])
    requires u != NULL && u in r.states[0].threads && Places(r.states[0], u) == 0
    ensures RunningIsHolder(r.states[i]) && u in r.states[i].threads && Places(r.states[i], u) == 0
    ensures r.states[i].control != Coroutine(u)
  {
    hide Next, Enabled, Inv;
    if i > 0 {
      LostForever(r, i - 1, u);
      LostStaysLost(r.states[i - 1], r.steps[i - 1], u);
    }
  }

  lemma OneWait(s: State, fd: Fd)
    requires s.control.Coroutine?
    ensures var d := Next(s, Wait(fd));
            && d.ioWait == s.ioWait[fd := s.running] && d.events == s.events + multiset{fd}
            && d.sleepers == s.sleepers && d.clock == s.clock && d.free == s.free && d.threads == s.threads
            && (s.runnable == [] ==> d.control.Main? && d.runnable == [])
            && (s.runnable != [] ==> d.control == Coroutine(s.runnable[0]) && d.running == s.runnable[0] && d.runnable == s.runnable[1..])
  {
  }

  lemma TwoWaits(s: State, t: Tid, fd: Fd)
    requires s.control.Coroutine? && s.runnable == [t] && fd !in s.ioWait
    ensures Next(s, Wait(fd)).control.Coroutine?
    ensures var d := Next(Next(s, Wait(fd)), Wait(fd));
            && d.control.Main? && d.runnable == [] && d.ioWait == s.ioWait[fd := t]
            && d.events == s.events + multiset{fd, fd} && d.sleepers == s.sleepers && d.clock == s.clock
  {
    hide Next;
    OneWait(s, fd);
    OneWait(Next(s, Wait(fd)), fd);
  }

  lemma OneFiring(s: State, fd: Fd)
    requires s.control.Main? && s.runnable == [] && fd in s.events && s.sleepers == map[] && s.clock < TWO63
    ensures Enabled(s, Pass(s.clock, Some(fd), []))
    ensures var d := Next(s, Pass(s.clock, Some(fd), []));
            && d.control == Coroutine(Waiter(s, fd)) && d.runnable == [] && d.ioWait == s.ioWait - {fd}
            && d.events == s.events - multiset{fd} && d.sleepers == map[] && d.clock == s.clock
  {
    var p := Prepared(s, Pass(s.clock, Some(fd), []));
    assert p.runnable == [Waiter(s, fd)];
    assert p.sleepers == map[];
  }

  /** A run continued by one step. */
  ghost function Then(r: Run, st: Step): (r': Run)
    requires IsRun(r) && Enabled(Last(r), st)
    ensures IsRun(r') && r'.states[0] == r.states[0] && Last(r') == Next(Last(r), st) && r'.steps == r.steps + [st]
  {
    Extended(r, st, Next(Last(r), st))
  }

  /** Without the discipline the run list can receive the null pointer: two coroutines wait for
      descriptor 5, and its second event finds no waiter. */
  lemma SecondWaiterQueuesNull()
    ensures exists r: Run :: IsRun(r) && r.states[0] == Init() && Last(r).control == Coroutine(NULL)
  {
    var t: Tid := POOL_SIZE + 1;
    var r1 := Then(Trace([Init()], []), Create(7, t));
    assert Last(r1).runnable == [t] && Last(r1).sleepers == map[] && Last(r1).clock == 0 && Last(r1).ioWait == map[];
    hide Next, Init;
    TwoWaits(Last(r1), t, 5);
    var r3 := Then(Then(r1, Wait(5)), Wait(5));
    OneFiring(Last(r3), 5);
    var r4 := Then(r3, Pass(0, Some(5), []));
    OneWait(Last(r4), 6);
    var r5 := Then(r4, Wait(6));
    OneFiring(Last(r5), 5);
    var r6 := Then(r5, Pass(0, Some(5), []));
  }

  // ----- first in, first out

  /** The threads a step adds to the run list. */
  function EnqueuedBy(s: State, st: Step): seq<Tid> {
    match st
    case Create(w, t) => [t]
    case Pass(now, fired, woken) => (if fired.Some? then [Waiter(s, fired.value)] else []) + woken
    case _ => []
  }

  /** The thread a step gives control to, if any. */
  ghost function DispatchedBy(s: State, st: Step): seq<Tid>
    requires Enabled(s, st)
  {
    if !st.Create? && Next(s, st).control.Coroutine? then [Next(s, st).control.t] else []
  }

  ghost function Enqueued(r: Run, i: nat, j: nat): seq<Tid>
    requires IsRun(r) && i <= j < |r.states|
    decreases j
  {
    if i == j then [] else Enqueued(r, i, j - 1) + EnqueuedBy(r.states[j - 1], r.steps[j - 1])
  }

  ghost function Dispatched(r: Run, i: nat, j: nat): seq<Tid>
    requires IsRun(r) && i <= j < |r.states|
    decreases j
  {
    if i == j then [] else Dispatched(r, i, j - 1) + DispatchedBy(r.states[j - 1], r.steps[j - 1])
  }

  lemma PreparedEnqueues(s: State, st: Step)
    requires Enabled(s, st)
    ensures Prepared(s, st).runnable == s.runnable + EnqueuedBy(s, st)
  {
    hide DueInOrder, Waiter, Woken;
    match st
    case Pass(now, fired, woken) =>
      var first := if fired.Some? then [Waiter(s, fired.value)] else [];
      assert Fire(Tick(s, now), fired).runnable == s.runnable + first by {
        FiringAppends(s, now, fired);
      }
      assert (s.runnable + first) + woken == s.runnable + (first + woken);
    case _ =>
  }

  lemma FiringAppends(s: State, now: nat, fired: Option<Fd>)
    ensures Fire(Tick(s, now), fired).runnable == s.runnable + (if fired.Some? then [Waiter(s, fired.value)] else [])
  {
  }

  lemma ScheduleTakesFront(p: State)
    ensures p.runnable == (if Schedule(p).control.Coroutine? then [Schedule(p).control.t] else []) + Schedule(p).runnable
  {
    if p.runnable != [] {
      assert p.runnable == [p.runnable[0]] + p.runnable[1..];
    }
  }

  lemma StepIsFifo(s: State, st: Step)
    requires Enabled(s, st)
    ensures DispatchedBy(s, st) + Next(s, st).runnable == s.runnable + EnqueuedBy(s, st)
  {
    hide Prepared, Scheduler.Schedule, EnqueuedBy, Enabled;
    PreparedEnqueues(s, st);
    ScheduleTakesFront(Prepared(s, st));
  }

  lemma Queue(dispatched: seq<Tid>, q: seq<Tid>, start: seq<Tid>, enqueued: seq<Tid>,
              d: seq<Tid>, q': seq<Tid>, e: seq<Tid>)
    requires dispatched + q == start + enqueued && d + q' == q + e
    ensures (dispatched + d) + q' == start + (enqueued + e)
  {
    assert (dispatched + d) + q' == dispatched + (d + q') == (dispatched + q) + e == start + (enqueued + e);
  }

  /** Over any stretch of any run, the threads dispatched followed by those still listed are
      the threads listed at the start followed by those enqueued since, in order. */
  lemma {:induction false} DispatchIsFifo(r: Run, i: nat, j: nat)
    requires IsRun(r) && i <= j < |r.states|
    ensures Dispatched(r, i, j) + r.states[j].runnable == r.states[i].runnable + Enqueued(r, i, j)
    decreases j
  {
    hide Next, Enabled, Inv;
    if i < j {
      var s, st := r.states[j - 1], r.steps[j - 1];
      DispatchIsFifo(r, i, j - 1);
      StepIsFifo(s, st);
      Queue(Dispatched(r, i, j - 1), s.runnable, r.states[i].runnable, Enqueued(r, i, j - 1),
            DispatchedBy(s, st), r.states[j].runnable, EnqueuedBy(s, st));
    }
  }

  // ----- one round of the main loop

  ghost function Created(r: Run, i: nat, j: nat): seq<Tid>
    requires IsRun(r) && i <= j < |r.states|
    decreases j
  {
    if i == j then []
    else Created(r, i, j - 1) + (if r.steps[j - 1].Create? then [r.steps[j - 1].t] else [])
  }

  /** Control is with coroutines strictly between `i` and `j`. */
  ghost predicate Away(r: Run, i: nat, j: nat)
    requires IsRun(r) && i < j < |r.states|
  {
    r.states[i].control.Main? && forall k | i < k < j :: r.states[k].control.Coroutine?
  }

  lemma StepCounts(s: State, st: Step)
    requires Enabled(s, st)
    ensures |DispatchedBy(s, st)| == 1 - One(st.Create?) - One(Next(s, st).control.Main?)
    ensures s.control.Coroutine? ==> EnqueuedBy(s, st) == if st.Create? then [st.t] else []
    ensures s.control.Main? ==> st.Pass?
  {
  }

  /** While the main loop is away only `Create` enqueues, and each other step is a dispatch or the end. */
  lemma {:induction false} AwayCounts(r: Run, i: nat, j: nat)
    requires IsRun(r) && i < j < |r.states| && Away(r, i, j)
    ensures Enqueued(r, i, j) == EnqueuedBy(r.states[i], r.steps[i]) + Created(r, i + 1, j)
    ensures |Dispatched(r, i, j)| == j - i - |Created(r, i + 1, j)| - One(r.states[j].control.Main?)
    decreases j
  {
    hide Next, Enabled, EnqueuedBy, DispatchedBy, Enqueued, Dispatched, Created;
    var s, st := r.states[j - 1], r.steps[j - 1];
    assert r.states[j] == Next(s, st);
    StepCounts(s, st);
    AwayAtFirst(r, i);
    if i + 1 < j {
      AwayCounts(r, i, j - 1);
      AwayOnce(r, i, j);
      Assoc(EnqueuedBy(r.states[i], r.steps[i]), Created(r, i + 1, j - 1), EnqueuedBy(s, st));
    }
  }

  lemma AwayAtFirst(r: Run, i: nat)
    requires IsRun(r) && i < |r.steps|
    ensures Enqueued(r, i, i + 1) == EnqueuedBy(r.states[i], r.steps[i]) && Created(r, i + 1, i + 1) == []
    ensures Dispatched(r, i, i + 1) == DispatchedBy(r.states[i], r.steps[i])
  {
    hide Next, Enabled, EnqueuedBy, DispatchedBy;
    assert Enqueued(r, i, i) == [] && Dispatched(r, i, i) == [];
  }

  lemma AwayOnce(r: Run, i: nat, j: nat)
    requires IsRun(r) && i + 1 < j < |r.states|
    ensures Enqueued(r, i, j) == Enqueued(r, i, j - 1) + EnqueuedBy(r.states[j - 1], r.steps[j - 1])
    ensures Dispatched(r, i, j) == Dispatched(r, i, j - 1) + DispatchedBy(r.states[j - 1], r.steps[j - 1])
    ensures Created(r, i + 1, j) == Created(r, i + 1, j - 1) + (if r.steps[j - 1].Create? then [r.steps[j - 1].t] else [])
  {
    hide Next, Enabled, EnqueuedBy, DispatchedBy;
  }

  lemma Assoc(a: seq<Tid>, b: seq<Tid>, c: seq<Tid>)
    ensures (a + b) + c == a + (b + c)
  {
  }

  /** Once the main loop is left it regains control after exactly one dispatch for each thread that
      was ready and for each thread created meanwhile, first come first served. */
  lemma RoundDispatchesAllOnce(r: Run, i: nat, j: nat)
    requires GoodRun(r) && i < j < |r.states| && Away(r, i, j) && r.states[j].control.Main?
    ensures Dispatched(r, i, j) == EnqueuedBy(r.states[i], r.steps[i]) + Created(r, i + 1, j)
    ensures j - i == 1 + |EnqueuedBy(r.states[i], r.steps[i])| + 2 * |Created(r, i + 1, j)|
  {
    hide Next, Enabled, Core;
    EveryStateIsGood(r, i);
    EveryStateIsGood(r, j);
    DispatchIsFifo(r, i, j);
    AwayCounts(r, i, j);
    assert Dispatched(r, i, j) + [] == Dispatched(r, i, j);
  }

  /** A measure for the return of control: each step away that creates nothing uses up one of the
      threads that were ready or were created. */
  lemma RoundIsBounded(r: Run, i: nat, j: nat)
    requires GoodRun(r) && i < j < |r.states| && Away(r, i, j) && r.states[j].control.Coroutine?
    ensures j - i + |r.states[j].runnable| == |EnqueuedBy(r.states[i], r.steps[i])| + 2 * |Created(r, i + 1, j)|
  {
    hide Next, Enabled, Core;
    EveryStateIsGood(r, i);
    DispatchIsFifo(r, i, j);
    AwayCounts(r, i, j);
  }

  // ----- sleepers

  lemma SleepEntersMap(s: State, ms: nat, now: nat)
    requires Inv(s) && Enabled(s, Sleep(ms, now))
    ensures s.control.t in Next(s, Sleep(ms, now)).sleepers
    ensures Next(s, Sleep(ms, now)).sleepers[s.control.t] == now + ms
  {
    hide WorksOnce, NoWorkLost, DeadIffPooled, ContextsLive, DeadlinesNear, EventsMatch;
    assert Places(s, s.control.t) == One(s.control.t in s.threads);
  }

  lemma SleeperStays(s: State, st: Step, t: Tid)
    requires Enabled(s, st) && t in s.sleepers
    requires if st.Pass? then st.now < s.sleepers[t] else t != s.running
    ensures t in Next(s, st).sleepers && Next(s, st).sleepers[t] == s.sleepers[t]
  {
    hide Next;
    NextAsPrepared(s, st);
  }

  lemma SleeperIsNotHolder(s: State, t: Tid)
    requires Inv(s) && t in s.sleepers
    ensures s.control != Coroutine(t)
  {
    assert Places(s, t) == One(t in s.threads);
  }

  lemma SleeperStepsOver(s: State, st: Step, t: Tid)
    requires Inv(s) && Enabled(s, st) && t in s.sleepers
    requires st.Pass? ==> st.now < s.sleepers[t]
    ensures t in Next(s, st).sleepers && Next(s, st).sleepers[t] == s.sleepers[t]
  {
    hide OnePlace, DeadIffPooled, ContextsLive, WorksOnce, NoWorkLost;
    SleeperIsNotHolder(s, t);
    SleeperStays(s, st, t);
  }

  lemma DuePassWakes(s: State, st: Step, t: Tid)
    requires Inv(s) && Enabled(s, st) && st.Pass? && t in s.sleepers
    ensures t in st.woken <==> s.sleepers[t] <= st.now
    ensures t in EnqueuedBy(s, st) <==> s.sleepers[t] <= st.now
  {
    hide WorksOnce, NoWorkLost, DeadIffPooled, ContextsLive, DeadlinesNear, EventsMatch;
    assert Places(s, t) == 1 && Places(s, NULL) == 0;
    forall fd ensures Waiter(s, fd) != t {
      assert fd in s.ioWait ==> Waits(s.ioWait, s.ioWait[fd]);
    }
  }

  ghost predicate AsleepUntil(s: State, t: Tid, due: nat) {
    t in s.sleepers && s.sleepers[t] == due
  }

  /** From going to sleep up to the first due pass the thread is asleep, with the same deadline. */
  lemma {:induction false} SleepsOn(r: Run, i: nat, k: nat)
    requires GoodRun(r) && i < k < |r.states| && r.steps[i].Sleep? && r.states[i].control.Coroutine?
    requires forall m | i < m < k && r.steps[m].Pass? :: r.steps[m].now < r.steps[i].now + r.steps[i].ms
    ensures AsleepUntil(r.states[k], r.states[i].control.t, r.steps[i].now + r.steps[i].ms)
    decreases k
  {
    hide Next, Enabled, Inv;
    var s, st := r.states[k - 1], r.steps[k - 1];
    EveryStateIsGood(r, k - 1);
    if i == k - 1 {
      SleepEntersMap(s, st.ms, st.now);
    } else {
      SleepsOn(r, i, k - 1);
      SleeperStepsOver(s, st, r.states[i].control.t);
    }
  }

  /** A thread that goes to sleep for `ms` at `now` is asleep, with the same deadline, up to the
      first pass of the main loop stamped at or after `now + ms`, and that pass wakes it. */
  lemma WakesAtFirstDuePass(r: Run, i: nat, k: nat)
    requires GoodRun(r) && i < k < |r.steps| && r.steps[i].Sleep? && r.steps[k].Pass?
    requires forall m | i < m < k && r.steps[m].Pass? :: r.steps[m].now < r.steps[i].now + r.steps[i].ms
    ensures r.states[i].control.Coroutine?
    ensures var t, due := r.states[i].control.t, r.steps[i].now + r.steps[i].ms;
            && AsleepUntil(r.states[k], t, due)
            && (t in r.steps[k].woken <==> due <= r.steps[k].now)
            && (t in EnqueuedBy(r.states[k], r.steps[k]) <==> due <= r.steps[k].now)
  {
    hide Next, Inv;
    assert Enabled(r.states[i], r.steps[i]);
    SleepsOn(r, i, k);
    EveryStateIsGood(r, k);
    DuePassWakes(r.states[k], r.steps[k], r.states[i].control.t);
  }

  /** Of two sleepers that a pass wakes, the one due earlier is enqueued earlier. */
  lemma EarlierWakesFirst(r: Run, k: nat, t: Tid, u: Tid)
    requires IsRun(r) && k < |r.steps| && r.steps[k].Pass? && t in r.states[k].sleepers && u in r.states[k].sleepers
    requires r.states[k].sleepers[t] < r.states[k].sleepers[u] <= r.steps[k].now
    ensures var q, first := EnqueuedBy(r.states[k], r.steps[k]), One(r.steps[k].fired.Some?);
            exists i, j :: first <= i < j < |q| && q[i] == t && q[j] == u
  {
    hide Next, DueInOrder;
    var s, st := r.states[k], r.steps[k];
    assert Enabled(s, st);
    hide IsRun;
    var i, j := WokenInOrder(s.sleepers, st.now, st.woken, t, u);
    var q, first := EnqueuedBy(s, st), One(st.fired.Some?);
    assert q[first + i] == t && q[first + j] == u;
  }

  lemma WokenInOrder(sleepers: map<Tid, nat>, now: nat, woken: seq<Tid>, t: Tid, u: Tid) returns (i: nat, j: nat)
    requires DueInOrder(sleepers, now, woken) && t in sleepers && u in sleepers && sleepers[t] < sleepers[u] <= now
    ensures i < j < |woken| && woken[i] == t && woken[j] == u
  {
    assert t in woken && u in woken;
    i :| 0 <= i < |woken| && woken[i] == t;
    j :| 0 <= j < |woken| && woken[j] == u;
  }

  // ----- what a thread reads of its state

  /** A thread asleep or waiting reads stopped. */
  ghost predicate ParkedReadsStopped(s: State) {
    && (forall t | t in s.sleepers :: t in s.state && s.state[t] == Stop)
    && (forall fd | fd in s.ioWait :: s.ioWait[fd] in s.state && s.state[s.ioWait[fd]] == Stop)
  }

  /** A thread in control, pooled or new is neither asleep nor waiting, and one asleep does not wait. */
  lemma ParkedElsewhere(s: State, t: Tid)
    requires OnePlace(s)
    ensures s.control == Coroutine(t) || t in s.free || t !in s.threads ==>
              t !in s.sleepers && forall fd | fd in s.ioWait :: s.ioWait[fd] != t
    ensures t in s.sleepers ==> forall fd | fd in s.ioWait :: s.ioWait[fd] != t
  {
    assert Places(s, t) == One(t in s.threads);
    forall fd | fd in s.ioWait ensures Waits(s.ioWait, s.ioWait[fd]) { }
  }

  lemma WakeReadsStopped(s: State, woken: seq<Tid>)
    requires OnePlace(s) && ParkedReadsStopped(s) && forall t | t in woken :: t in s.sleepers
    ensures ParkedReadsStopped(Wake(s, woken))
  {
    hide OnePlace, NoDuplicates;
    forall t | t in woken ensures forall fd | fd in s.ioWait :: s.ioWait[fd] != t {
      ParkedElsewhere(s, t);
    }
  }

  lemma PreparedReadsStopped(s: State, st: Step)
    requires Inv(s) && Enabled(s, st) && OneWaiter(s, st) && ParkedReadsStopped(s)
    ensures ParkedReadsStopped(Prepared(s, st))
  {
    hide OnePlace, DeadIffPooled, ContextsLive, WorksOnce, NoWorkLost, Woken, DeadlinesNear, EventsMatch, Wake;
    match st
    case Create(w, t) => ParkedElsewhere(s, t);
    case Finish => ParkedElsewhere(s, s.running);
    case Pass(now, fired, woken) =>
      TickKeeps(s, now);
      FireKeeps(Tick(s, now), fired);
      FireReadsStopped(Tick(s, now), fired);
      WakeReadsStopped(Fire(Tick(s, now), fired), woken);
    case _ =>
  }

  lemma FireReadsStopped(s: State, fired: Option<Fd>)
    requires ParkedReadsStopped(s)
    ensures ParkedReadsStopped(Fire(s, fired))
  {
  }

  /** In every run from the start, sleepers and waiters read stopped, and a woken thread reads runnable. */
  lemma {:induction false} ParkedIsStopped(r: Run, i: nat)
    requires GoodRun(r) && r.states[0] == Init() && i < |r.states|
    ensures ParkedReadsStopped(r.states[i])
  {
    hide Next, Enabled, Inv;
    if i > 0 {
      ParkedIsStopped(r, i - 1);
      EveryStateIsGood(r, i - 1);
      StepReadsStopped(r.states[i - 1], r.steps[i - 1]);
    }
  }

  lemma StepReadsStopped(s: State, st: Step)
    requires Inv(s) && Enabled(s, st) && OneWaiter(s, st) && ParkedReadsStopped(s)
    ensures ParkedReadsStopped(Next(s, st))
    ensures st.Pass? ==> forall t | t in st.woken :: t in Next(s, st).state && Next(s, st).state[t] == Runnable
  {
    hide Inv, Scheduler.Schedule, Woken, DueInOrder;
    PreparedReadsStopped(s, st);
    ScheduleExtendsHistory(Prepared(s, st));
    NextAsPrepared(s, st);
    if st.Pass? {
      WokenReadRunnable(s.state, st.woken);
    }
  }

  lemma WokenReadRunnable(state: map<Tid, ThreadState>, woken: seq<Tid>)
    ensures forall t | t in woken :: t in Woken(state, woken) && Woken(state, woken)[t] == Runnable
  {
  }

  // ----- which thread the program believes to run

  /** While the main loop has control, the running thread is null, or one that waits for a descriptor: only a wait does
      not clear it. */
  ghost predicate MainNames(s: State) {
    s.control.Main? ==> s.running == NULL || Waits(s.ioWait, s.running)
  }

  lemma StepMainNames(s: State, st: Step)
    requires Enabled(s, st) && MainNames(s)
    ensures MainNames(Next(s, st))
  {
    hide DueInOrder, Woken, Waits, Scheduler.Schedule;
    NothingToRun(Prepared(s, st));
    match st
    case Wait(fd) => NewWaiter(s.ioWait, fd, s.running);
    case _ =>
  }

  lemma NothingToRun(p: State)
    ensures Schedule(p).control.Main? ==> p.runnable == [] && Schedule(p).running == p.running && Schedule(p).ioWait == p.ioWait
  {
  }

  lemma NewWaiter(m: map<Fd, Tid>, fd: Fd, t: Tid)
    ensures Waits(m[fd := t], t)
  {
    assert m[fd := t][fd] == t;
  }

  /** In every state of every run the running thread is the one in control, or, while the main loop has control, null or
      a thread that waits for a descriptor. */
  lemma {:induction false} RunningIsKnown(r: Run, i: nat)
    requires GoodRun(r) && MainNames(r.states[0]) && i < |r.states|
    ensures MainNames(r.states[i]) && RunningIsHolder(r.states[i])
  {
    EveryStateIsGood(r, i);
    hide Next, Enabled, MainNames;
    if i > 0 {
      RunningIsKnown(r, i - 1);
      StepMainNames(r.states[i - 1], r.steps[i - 1]);
    }
  }

  /** Every deadline is less than `bound` after the last reading of the clock. */
  ghost predicate Within(s: State, bound: nat) {
    forall t | t in s.sleepers :: s.sleepers[t] < s.clock + bound
  }

  lemma StepKeepsWithin(s: State, st: Step, bound: nat)
    requires Enabled(s, st) && Within(s, bound) && (st.Sleep? ==> st.ms < bound)
    ensures Within(Next(s, st), bound)
  {
    hide Next;
    NextAsPrepared(s, st);
  }

  lemma {:induction false} SleepsStayWithin(r: Run, i: nat, bound: nat)
    requires IsRun(r) && i < |r.states| && Within(r.states[0], bound)
    requires forall k | 0 <= k < |r.steps| && r.steps[k].Sleep? :: r.steps[k].ms < bound
    ensures Within(r.states[i], bound)
  {
    hide Next, Enabled, Within;
    if i > 0 {
      SleepsStayWithin(r, i - 1, bound);
      StepKeepsWithin(r.states[i - 1], r.steps[i - 1], bound);
    }
  }

  /** In a run whose sleeps are all below `bound`, every pass finds all deadlines less than `bound` ahead. With
      a bound of 2^31 this makes the timeout of the event loop exact, as module `LoopTimeout` shows. */
  lemma PassFindsDeadlinesWithin(r: Run, k: nat, bound: nat)
    requires IsRun(r) && k < |r.steps| && r.steps[k].Pass? && Within(r.states[0], bound)
    requires forall m | 0 <= m < |r.steps| && r.steps[m].Sleep? :: r.steps[m].ms < bound
    ensures forall t | t in r.states[k].sleepers :: r.states[k].sleepers[t] < r.steps[k].now + bound
  {
    hide Next;
    SleepsStayWithin(r, k, bound);
    assert Enabled(r.states[k], r.steps[k]);
  }

  // ----- descriptors

  ghost predicate WaitsFor(s: State, t: Tid, fd: Fd) {
    fd in s.ioWait && s.ioWait[fd] == t && s.events[fd] == 1
  }

  lemma EventOfWaiter(s: State, fd: Fd)
    requires Inv(s) && fd in s.ioWait
    ensures WaitsFor(s, s.ioWait[fd], fd)
  {
  }

  lemma WaitRegisters(s: State, fd: Fd)
    requires Inv(s) && Enabled(s, Wait(fd)) && OneWaiter(s, Wait(fd))
    ensures WaitsFor(Next(s, Wait(fd)), s.control.t, fd)
  {
    hide Next, OnePlace, DeadIffPooled, ContextsLive, WorksOnce, NoWorkLost, EventsMatch, DeadlinesNear;
    NextKeeps(s, Wait(fd));
    OneWait(s, fd);
    EventOfWaiter(Next(s, Wait(fd)), fd);
  }

  lemma WaiterStays(s: State, st: Step, fd: Fd)
    requires Enabled(s, st) && OneWaiter(s, st) && fd in s.ioWait
    requires st.Pass? ==> st.fired != Some(fd)
    ensures fd in Next(s, st).ioWait && Next(s, st).ioWait[fd] == s.ioWait[fd]
  {
    hide Next;
    NextAsPrepared(s, st);
  }

  lemma WaiterStepsOver(s: State, st: Step, fd: Fd)
    requires Inv(s) && Enabled(s, st) && OneWaiter(s, st) && fd in s.ioWait
    requires st.Pass? ==> st.fired != Some(fd)
    ensures WaitsFor(Next(s, st), s.ioWait[fd], fd)
  {
    hide Next, Enabled, Inv;
    WaiterStays(s, st, fd);
    NextKeeps(s, st);
    EventOfWaiter(Next(s, st), fd);
  }

  lemma FiringEnqueues(s: State, st: Step, t: Tid, fd: Fd)
    requires Inv(s) && Enabled(s, st) && st.Pass? && st.fired == Some(fd) && WaitsFor(s, t, fd)
    ensures EnqueuedBy(s, st) == [t] + st.woken
    ensures fd !in Next(s, st).ioWait && Next(s, st).events[fd] == 0
  {
  }

  lemma {:induction false} WaitsOn(r: Run, i: nat, k: nat)
    requires GoodRun(r) && i < k < |r.states| && r.steps[i].Wait? && r.states[i].control.Coroutine?
    requires forall m | i < m < k && r.steps[m].Pass? :: r.steps[m].fired != Some(r.steps[i].fd)
    ensures WaitsFor(r.states[k], r.states[i].control.t, r.steps[i].fd)
    decreases k
  {
    hide Next, Enabled, Inv;
    var s, st := r.states[k - 1], r.steps[k - 1];
    EveryStateIsGood(r, k - 1);
    if i == k - 1 {
      WaitRegisters(s, st.fd);
    } else {
      WaitsOn(r, i, k - 1);
      WaiterStepsOver(s, st, r.steps[i].fd);
    }
  }

  /** From its wait to the first firing of its descriptor a coroutine is that descriptor's waiter, with
      one event registered; the firing enqueues it and leaves neither waiter nor event. */
  lemma FiringWakesItsWaiter(r: Run, i: nat, k: nat)
    requires GoodRun(r) && i < k < |r.steps| && r.steps[i].Wait?
    requires r.steps[k].Pass? && r.steps[k].fired == Some(r.steps[i].fd)
    requires forall m | i < m < k && r.steps[m].Pass? :: r.steps[m].fired != Some(r.steps[i].fd)
    ensures r.states[i].control.Coroutine?
    ensures var t, fd := r.states[i].control.t, r.steps[i].fd;
            && WaitsFor(r.states[k], t, fd)
            && EnqueuedBy(r.states[k], r.steps[k]) == [t] + r.steps[k].woken
            && fd !in r.states[k + 1].ioWait && r.states[k + 1].events[fd] == 0
  {
    assert Enabled(r.states[i], r.steps[i]);
    WaitsOn(r, i, k);
    EveryStateIsGood(r, k);
    FiringEnqueues(r.states[k], r.steps[k], r.states[i].control.t, r.steps[i].fd);
  }

  // ----- works

  lemma StepExtendsHistory(s: State, st: Step)
    requires Enabled(s, st)
    ensures s.ran <= Next(s, st).ran && s.deleted <= Next(s, st).deleted && s.created <= Next(s, st).created
  {
    var p := Prepared(s, st);
    assert s.ran == p.ran && s.deleted <= p.deleted && s.created <= p.created;
    ScheduleExtendsHistory(p);
  }

  lemma ScheduleExtendsHistory(p: State)
    ensures p.ran <= Schedule(p).ran && p.deleted == Schedule(p).deleted && p.created == Schedule(p).created
    ensures p.state == Schedule(p).state && p.free == Schedule(p).free
  {
  }

  lemma {:induction false} HistoryGrows(r: Run, i: nat, j: nat)
    requires IsRun(r) && i <= j < |r.states|
    ensures r.states[i].ran <= r.states[j].ran && r.states[i].deleted <= r.states[j].deleted
    ensures r.states[i].created <= r.states[j].created
    decreases j
  {
    hide Next, Enabled, Inv;
    if i < j {
      HistoryGrows(r, i, j - 1);
      StepExtendsHistory(r.states[j - 1], r.steps[j - 1]);
    }
  }

  /** `w` began, is deleted, and no thread holds it. */
  ghost predicate IsOver(s: State, w: WorkId) {
    && w in s.ran && w in s.deleted
    && forall t | t in s.context && HasWork(s.context[t]) :: s.context[t].work != w
  }

  lemma FinishDeletes(s: State)
    requires Inv(s) && Enabled(s, Finish)
    ensures s.context[s.running].work in s.ran && s.context[s.running].work !in s.deleted
    ensures s.context[s.running].work in Next(s, Finish).deleted
  {
    ScheduleExtendsHistory(Recycle(s));
  }

  lemma DeletedIsOver(s: State, w: WorkId)
    requires Inv(s) && w in s.deleted
    ensures IsOver(s, w) && NoDuplicates(s.ran) && NoDuplicates(s.deleted)
  {
  }

  /** When a step deletes a work, the work had begun and had not been deleted; ever after it is over,
      and no work has begun twice or been deleted twice. */
  lemma WorkRunsOnceThenIsDeleted(r: Run, i: nat, j: nat)
    requires GoodRun(r) && i < |r.steps| && i < j < |r.states| && r.steps[i].Finish?
    ensures r.states[i].running in r.states[i].context && r.states[i].context[r.states[i].running].Active?
    ensures var w := r.states[i].context[r.states[i].running].work;
            && w in r.states[i].ran && w !in r.states[i].deleted && IsOver(r.states[j], w)
            && NoDuplicates(r.states[j].ran) && NoDuplicates(r.states[j].deleted)
  {
    hide Next, Inv;
    assert Enabled(r.states[i], r.steps[i]);
    EveryStateIsGood(r, i);
    EveryStateIsGood(r, j);
    FinishDeletes(r.states[i]);
    HistoryGrows(r, i + 1, j);
    DeletedIsOver(r.states[j], r.states[i].context[r.states[i].running].work);
  }

  lemma HandedOutStaysSo(s: State, st: Step)
    requires Enabled(s, st)
    ensures s.state.Keys <= Next(s, st).state.Keys
    ensures st.Create? ==> st.t in Next(s, st).state
  {
    ScheduleExtendsHistory(Prepared(s, st));
    hide Scheduler.Schedule;
  }

  lemma {:induction false} HandedOut(r: Run, i: nat, j: nat)
    requires IsRun(r) && i < |r.steps| && i < j < |r.states| && r.steps[i].Create?
    ensures r.steps[i].t in r.states[j].state
    decreases j
  {
    hide Next, Enabled, Inv;
    HandedOutStaysSo(r.states[j - 1], r.steps[j - 1]);
    if i + 1 < j {
      HandedOut(r, i, j - 1);
    }
  }

  /** A wrapper taken when a thread was handed out reads dead exactly while the thread is pooled; so it
      reads alive again as soon as the thread is handed out anew. */
  lemma WrapperReadsDeadIffPooled(r: Run, i: nat, j: nat)
    requires GoodRun(r) && i < |r.steps| && i < j < |r.states| && r.steps[i].Create?
    ensures r.steps[i].t in r.states[j].state
    ensures r.states[j].state[r.steps[i].t] == Dead <==> r.steps[i].t in r.states[j].free
  {
    HandedOut(r, i, j);
    EveryStateIsGood(r, j);
  }

  lemma FinishPools(s: State)
    requires Inv(s) && Enabled(s, Finish)
    ensures s.running == s.control.t && s.running in Next(s, Finish).free && s.running in Next(s, Finish).state
  {
    ScheduleExtendsHistory(Recycle(s));
  }

  lemma PooledStays(s: State, st: Step, t: Tid)
    requires Enabled(s, st) && t in s.free && t in s.state && !(st.Create? && st.t == t)
    ensures t in Next(s, st).free && t in Next(s, st).state
  {
    hide Scheduler.Schedule;
    HandedOutStaysSo(s, st);
    ScheduleExtendsHistory(Prepared(s, st));
    PooledWhilePreparing(s, st, t);
  }

  lemma PooledWhilePreparing(s: State, st: Step, t: Tid)
    requires Enabled(s, st) && t in s.free && !(st.Create? && st.t == t)
    ensures t in Prepared(s, st).free
  {
    if st.Create? {
      assert s.free == s.free[..|s.free| - 1] + [st.t];
    }
  }

  lemma HandingOutRevives(s: State, st: Step)
    requires Enabled(s, st) && st.Create?
    ensures st.t in Next(s, st).state && Next(s, st).state[st.t] == Stop
  {
  }

  ghost predicate ReadsDead(s: State, t: Tid) {
    t in s.state && s.state[t] == Dead
  }

  /** No thread handed out between `i` and `j` is `t`. */
  ghost predicate NotHandedOut(r: Run, i: nat, j: nat, t: Tid)
    requires j <= |r.steps|
  {
    forall m | i <= m < j && r.steps[m].Create? :: r.steps[m].t != t
  }

  lemma {:induction false} PooledSince(r: Run, i: nat, j: nat)
    requires GoodRun(r) && i < |r.steps| && i < j < |r.states| && r.steps[i].Finish? && r.states[i].control.Coroutine?
    requires NotHandedOut(r, i + 1, j, r.states[i].control.t)
    ensures r.states[i].control.t in r.states[j].free && r.states[i].control.t in r.states[j].state
    decreases j
  {
    hide Next, Enabled, Inv;
    if i + 1 == j {
      EveryStateIsGood(r, i);
      FinishPools(r.states[i]);
    } else {
      PooledSince(r, i, j - 1);
      PooledStays(r.states[j - 1], r.steps[j - 1], r.states[i].control.t);
    }
  }

  lemma PooledReadsDead(s: State, t: Tid)
    requires Inv(s) && t in s.free && t in s.state
    ensures ReadsDead(s, t)
  {
  }

  /** From the end of its work on, a thread reads dead in every state exactly if no thread created since is the same:
      a wrapper kept across a later `CreateThread` may read it alive. */
  lemma ReadsDeadExactlyUntilHandedOut(r: Run, i: nat, j: nat)
    requires GoodRun(r) && i < |r.steps| && i < j < |r.states| && r.steps[i].Finish?
    ensures r.states[i].control.Coroutine?
    ensures (forall k | i < k <= j :: ReadsDead(r.states[k], r.states[i].control.t)) <==>
            NotHandedOut(r, i + 1, j, r.states[i].control.t)
  {
    hide Next, Inv;
    assert Enabled(r.states[i], r.steps[i]);
    hide Enabled;
    var t := r.states[i].control.t;
    if NotHandedOut(r, i + 1, j, t) {
      forall k | i < k <= j ensures ReadsDead(r.states[k], t) {
        PooledSince(r, i, k);
        EveryStateIsGood(r, k);
        PooledReadsDead(r.states[k], t);
      }
    } else {
      var m :| i + 1 <= m < j && r.steps[m].Create? && r.steps[m].t == t;
      HandingOutRevives(r.states[m], r.steps[m]);
      assert !ReadsDead(r.states[m + 1], t);
    }
  }

  lemma CreateFirst(s: State, t: Tid)
    requires Inv(s) && s.control == Coroutine(1) && s.running == 1 && s.runnable == [] && s.sleepers == map[] && s.clock == 0
    requires s.free != [] && t == s.free[|s.free| - 1] && s.created == {}
    ensures Enabled(s, Create(7, t))
    ensures var a := Next(s, Create(7, t));
            && a.control == Coroutine(1) && a.running == 1 && a.runnable == [t] && a.sleepers == map[] && a.clock == 0
            && t in a.context && a.context[t] == Ready(7) && a.created == {7}
  {
    assert Places(s, t) == One(t in s.threads);
  }

  lemma SleepYields(a: State, t: Tid)
    requires a.control == Coroutine(1) && a.running == 1 && a.runnable == [t] && a.sleepers == map[] && a.clock == 0
    requires t in a.context && a.context[t] == Ready(7)
    ensures Enabled(a, Sleep(0, 0))
    ensures var b := Next(a, Sleep(0, 0));
            && b.control == Coroutine(t) && b.running == t && b.runnable == [] && b.sleepers == map[1 := 0] && b.clock == 0
            && t in b.context && b.context[t] == Active(7) && b.created == a.created
  {
  }

  lemma FinishReturns(b: State, t: Tid)
    requires b.control == Coroutine(t) && b.running == t && b.runnable == [] && b.sleepers == map[1 := 0] && b.clock == 0
    requires t in b.context && b.context[t] == Active(7)
    ensures Enabled(b, Finish)
    ensures var c := Next(b, Finish);
            && c.control.Main? && c.runnable == [] && c.sleepers == map[1 := 0] && c.clock == 0 && c.free == b.free + [t]
            && 7 in c.deleted && c.created == b.created
  {
  }

  lemma PassWakesFirst(c: State)
    requires c.control.Main? && c.runnable == [] && c.sleepers == map[1 := 0] && c.clock == 0
    ensures Enabled(c, Pass(0, None, [1]))
    ensures var d := Next(c, Pass(0, None, [1]));
            d.control == Coroutine(1) && d.free == c.free && d.deleted == c.deleted && d.created == c.created
  {
  }

  lemma CreateAgain(d: State, t: Tid)
    requires d.control.Coroutine? && d.created == {7} && d.free != [] && d.free[|d.free| - 1] == t
    ensures Enabled(d, Create(8, t)) && Next(d, Create(8, t)).deleted == d.deleted
  {
  }

  /** These steps lead from the start to `s`. */
  ghost predicate LeadsTo(steps: seq<Step>, s: State) {
    exists r: Run :: IsRun(r) && r.states[0] == Init() && r.steps == steps && Last(r) == s
  }

  lemma LeadsOn(steps: seq<Step>, s: State, st: Step)
    requires LeadsTo(steps, s) && Enabled(s, st)
    ensures LeadsTo(steps + [st], Next(s, st))
  {
    hide Next, Enabled, Init;
    var r: Run :| IsRun(r) && r.states[0] == Init() && r.steps == steps && Last(r) == s;
    var r' := Then(r, st);
  }

  lemma StartLeads()
    ensures LeadsTo([], Init())
  {
    var r: Run := Trace([Init()], []);
    assert IsRun(r) && Last(r) == Init();
  }

  lemma FirstOfPool()
    ensures var s := Init();
            && Inv(s) && s.control == Coroutine(1) && s.running == 1 && s.runnable == [] && s.sleepers == map[] && s.clock == 0
            && s.free != [] && s.free[|s.free| - 1] == POOL_SIZE + 1 && s.created == {}
  {
    InitHolds();
  }

  /** A run in which work 7 is deleted and the wrapper of its thread reads alive again, for work 8. */
  lemma WrapperReadsAliveAgain()
    ensures var t := POOL_SIZE + 1;
            exists s: State :: && LeadsTo([Create(7, t), Sleep(0, 0), Finish, Pass(0, None, [1]), Create(8, t)], s)
                               && 7 in s.deleted && !ReadsDead(s, t)
  {
    hide Next, Enabled, Inv, Init, LeadsTo;
    var t: Tid := POOL_SIZE + 1;
    StartLeads();
    FirstOfPool();
    CreateFirst(Init(), t);
    LeadsOn([], Init(), Create(7, t));
    var a := Next(Init(), Create(7, t));
    SleepYields(a, t);
    LeadsOn([] + [Create(7, t)], a, Sleep(0, 0));
    var b := Next(a, Sleep(0, 0));
    FinishReturns(b, t);
    LeadsOn([] + [Create(7, t)] + [Sleep(0, 0)], b, Finish);
    var c := Next(b, Finish);
    PassWakesFirst(c);
    LeadsOn([] + [Create(7, t)] + [Sleep(0, 0)] + [Finish], c, Pass(0, None, [1]));
    var d := Next(c, Pass(0, None, [1]));
    CreateAgain(d, t);
    LeadsOn([] + [Create(7, t)] + [Sleep(0, 0)] + [Finish] + [Pass(0, None, [1])], d, Create(8, t));
    HandingOutRevives(d, Create(8, t));
    assert [] + [Create(7, t)] + [Sleep(0, 0)] + [Finish] + [Pass(0, None, [1])] + [Create(8, t)]
           == [Create(7, t), Sleep(0, 0), Finish, Pass(0, None, [1]), Create(8, t)];
    assert !ReadsDead(Next(d, Create(8, t)), t);
  }
}
