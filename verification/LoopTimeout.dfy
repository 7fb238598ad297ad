/**
 How long the event loop may at most block in a pass of the main loop: up to the earliest deadline,
 computed through a 32-bit `int`. The timeout is a function of the sleepers and the pass's
 timestamp, in microseconds; `Frame.GetEventLoopTimeout` computes it.
 */
module LoopTimeout {
  import opened Basics
  import opened SleeperHeap
  import opened Scheduler
  import opened SchedulerRuns

  const NO_SLEEPERS: nat := 100_000

  /** Storing a delta below 2^32 in an `int` and widening it again is exact for the lower half only. */
  lemma NarrowedDelta(delta: nat)
    requires delta < TWO32
    ensures UInt64(Int32(delta)) == if delta < TWO31 then delta else TWO64 - TWO32 + delta
  {
    if delta < TWO31 {
      assert (delta + TWO31) % TWO32 == delta + TWO31;
    } else {
      assert (delta + TWO31) % TWO32 == delta + TWO31 - TWO32;
      assert Int32(delta) == delta - TWO32;
      assert (delta - TWO32) % TWO64 == delta - TWO32 + TWO64;
    }
  }

  ghost predicate Earliest(sleepers: map<Tid, nat>, t: Tid) {
    t in sleepers && forall u | u in sleepers :: sleepers[t] <= sleepers[u]
  }

  lemma {:induction false} SomeEarliest(sleepers: map<Tid, nat>)
    requires sleepers != map[]
    ensures exists t :: Earliest(sleepers, t)
    decreases |sleepers|
  {
    var t :| t in sleepers;
    var rest := sleepers - {t};
    assert sleepers.Keys == rest.Keys + {t} && |sleepers.Keys| == |rest.Keys| + 1;
    if rest == map[] {
      assert Earliest(sleepers, t);
    } else {
      SomeEarliest(rest);
      var u :| Earliest(rest, u);
      assert Earliest(sleepers, if sleepers[t] <= sleepers[u] then t else u);
    }
  }

  /** The earliest deadline. */
  ghost function Soonest(sleepers: map<Tid, nat>): (e: nat)
    requires sleepers != map[]
    ensures (exists t :: t in sleepers && sleepers[t] == e) && forall t | t in sleepers :: e <= sleepers[t]
  {
    SomeEarliest(sleepers);
    var t :| Earliest(sleepers, t);
    sleepers[t]
  }

  /** The milliseconds from `now` to a deadline, none if it is past. */
  function Ahead(deadline: nat, now: nat): nat {
    if deadline < now then 0 else deadline - now
  }

  ghost function Timeout(sleepers: map<Tid, nat>, now: nat): nat {
    if sleepers == map[] then NO_SLEEPERS
    else if Soonest(sleepers) < now then 0
    else 1000 * UInt64(Int32(Soonest(sleepers) - now))
  }

  /** The timeout is the time to the earliest deadline exactly if that is below 2^31 ms; else it is longer
      than 2^63 ms. */
  lemma TimeoutExactly(sleepers: map<Tid, nat>, now: nat)
    requires sleepers != map[] && forall t | t in sleepers :: sleepers[t] < now + TWO32
    ensures Timeout(sleepers, now) == 1000 * Ahead(Soonest(sleepers), now) <==> Soonest(sleepers) < now + TWO31
    ensures Soonest(sleepers) >= now + TWO31 ==> Timeout(sleepers, now) == 1000 * (TWO64 - TWO32 + Soonest(sleepers) - now)
  {
    if Soonest(sleepers) >= now {
      NarrowedDelta(Soonest(sleepers) - now);
    }
  }

  lemma PassFindsInv(s: State, st: Step)
    requires Inv(s) && Enabled(s, st) && st.Pass?
    ensures forall t | t in s.sleepers :: s.sleepers[t] < st.now + TWO32
  {
  }

  /** In any pass of any good run the timeout is right exactly if the earliest deadline is less than 2^31 ms ahead. */
  lemma PassTimeoutExactly(r: Run, k: nat)
    requires GoodRun(r) && k < |r.steps| && r.steps[k].Pass? && r.states[k].sleepers != map[]
    ensures var sleepers, now := r.states[k].sleepers, r.steps[k].now;
            && (Timeout(sleepers, now) == 1000 * Ahead(Soonest(sleepers), now) <==> Soonest(sleepers) < now + TWO31)
            && (Soonest(sleepers) >= now + TWO31 ==> Timeout(sleepers, now) > 1000 * (TWO63 as int))
  {
    hide Next, Inv, Timeout, Ahead;
    assert Enabled(r.states[k], r.steps[k]);
    EveryStateIsGood(r, k);
    PassFindsInv(r.states[k], r.steps[k]);
    TimeoutExactly(r.states[k].sleepers, r.steps[k].now);
  }

  /** If every sleep of a run is below 2^31 ms, the timeout of every pass is the time to the earliest deadline, and
      so reaches past no deadline. */
  lemma ShortSleepsAreNotOverslept(r: Run, k: nat)
    requires IsRun(r) && Within(r.states[0], TWO31) && k < |r.steps| && r.steps[k].Pass?
    requires forall m | 0 <= m < |r.steps| && r.steps[m].Sleep? :: r.steps[m].ms < TWO31
    ensures var sleepers, now := r.states[k].sleepers, r.steps[k].now;
            && Timeout(sleepers, now) == (if sleepers == map[] then 100_000 else 1000 * Ahead(Soonest(sleepers), now))
            && forall t | t in sleepers :: Timeout(sleepers, now) <= 1000 * Ahead(sleepers[t], now)
  {
    hide Next, Enabled;
    PassFindsDeadlinesWithin(r, k, TWO31);
    if r.states[k].sleepers != map[] {
      TimeoutExactly(r.states[k].sleepers, r.steps[k].now);
    }
  }

  lemma LongSleep(s: State)
    requires Inv(s) && s.control.Coroutine? && s.runnable == [] && s.sleepers == map[] && s.clock == 0
    ensures Enabled(s, Sleep(TWO31, 0)) && Next(s, Sleep(TWO31, 0)).sleepers == map[s.running := TWO31]
    ensures Enabled(Next(s, Sleep(TWO31, 0)), Pass(0, None, []))
  {
    assert Places(s, s.running) == One(s.running in s.threads);
  }

  /** One sleep of 2^31 ms: the pass that follows is given a timeout of more than 2^63 ms, past the deadline. */
  lemma LongSleepIsOverslept()
    ensures exists r: Run :: && GoodRun(r) && r.states[0] == Init() && |r.steps| == 2 && r.steps[1] == Pass(0, None, [])
                             && r.states[1].sleepers == map[1 := TWO31]
                             && Timeout(r.states[1].sleepers, 0) == 1000 * (TWO64 - TWO31)
  {
    InitHolds();
    var start := Trace([Init()], []);
    hide Next, Inv, Timeout;
    LongSleep(Init());
    var one := Then(start, Sleep(TWO31, 0));
    var r := Then(one, Pass(0, None, []));
    assert r.states[1].sleepers == map[1 := TWO31] && 1 in r.states[1].sleepers;
    TimeoutExactly(r.states[1].sleepers, 0);
    assert Soonest(map[1 := TWO31]) == TWO31;
    assert GoodRun(r);
  }
}
