/**
 Runs of two workers on one listener in which the accept lock fails: a compare-and-set that
 is not atomic, a pid handed out while it is queued, an accept that fails. Each is built
 step by step.
 */
module AcceptLockFailures {
  import opened AcceptLock
  import opened AcceptLockRuns
  import opened Basics

  ghost predicate AllLocked(r: Run) {
    forall i | 0 <= i < |r.steps| :: Locked(r.steps[i])
  }

  ghost function Then(r: Run, st: Step): (r': Run)
    requires IsRun(r) && Enabled(Last(r), st)
    ensures IsRun(r') && r'.states[0] == r.states[0] && Last(r') == Next(Last(r), st)
    ensures AllLocked(r) && Locked(st) ==> AllLocked(r')
  {
    Extended(r, st, Next(Last(r), st))
  }

  ghost predicate Goes(s: System, st: Step, d: System) {
    Enabled(s, st) && Next(s, st) == d
  }

  /** A run to `d`, with an atomic compare-and-set if `atomic`, exists. */
  ghost predicate Reached(d: System, atomic: bool) {
    exists r: Run :: IsRun(r) && r.states[0] == Init(1) && Last(r) == d && (atomic ==> AllLocked(r))
  }

  lemma Reach(s: System, st: Step, d: System, atomic: bool)
    requires Reached(s, atomic) && Goes(s, st, d) && (atomic ==> Locked(st))
    ensures Reached(d, atomic)
  {
    hide Next, Enabled, AllLocked;
    var r: Run :| IsRun(r) && r.states[0] == Init(1) && Last(r) == s && (atomic ==> AllLocked(r));
    var r' := Then(r, st);
  }

  // ----- two workers

  /** Workers 10 and 20, with the master watching. */
  function Two(word: Pid, a: Pc, b: Pc): System {
    System([word], map[10 := [a], 20 := [b]], {}, [10, 20], [], Watching, {})
  }

  lemma TwoStart()
    ensures Goes(Init(1), Spawn(10), System([0], map[10 := [Idle]], {}, [10], [], Starting, {}))
    ensures Goes(System([0], map[10 := [Idle]], {}, [10], [], Starting, {}), Spawn(20), Two(0, Idle, Idle).(master := Starting))
    ensures Goes(Two(0, Idle, Idle).(master := Starting), StartWatching, Two(0, Idle, Idle))
  {
    assert seq(1, l => Idle) == [Idle];
    assert Init(1).words == [0];
  }

  lemma TwoReached(atomic: bool)
    ensures Reached(Two(0, Idle, Idle), atomic)
  {
    hide Goes;
    TwoStart();
    var r := Trace([Init(1)], []);
    assert IsRun(r) && Last(r) == Init(1) && AllLocked(r);
    Reach(Init(1), Spawn(10), System([0], map[10 := [Idle]], {}, [10], [], Starting, {}), atomic);
    Reach(System([0], map[10 := [Idle]], {}, [10], [], Starting, {}), Spawn(20), Two(0, Idle, Idle).(master := Starting), atomic);
    Reach(Two(0, Idle, Idle).(master := Starting), StartWatching, Two(0, Idle, Idle), atomic);
  }

  lemma TwoMove(w: Pid, a: Pc, b: Pc, c: Pc)
    ensures Move(Two(w, a, b), 10, 0, c) == Two(w, c, b) && Move(Two(w, a, b), 20, 0, c) == Two(w, a, c)
  {
    assert [a][0 := c] == [c] && [b][0 := c] == [c];
    assert map[10 := [a], 20 := [b]][10 := [c]] == map[10 := [c], 20 := [b]];
    assert map[10 := [a], 20 := [b]][20 := [c]] == map[10 := [a], 20 := [c]];
  }

  /** What worker 10 does, whatever 20 is at. */
  lemma FirstGoes(b: Pc)
    ensures Goes(Two(0, Idle, b), Read(10, 0), Two(0, SawFree, b))
    ensures Goes(Two(0, SawFree, b), CompareAndSet(10, 0), Two(10, Holding, b))
    ensures Goes(Two(10, Holding, b), AcceptFails(10, 0), Two(10, Stuck, b))
  {
    TwoMove(0, Idle, b, SawFree);
    TwoMove(0, SawFree, b, Holding);
    TwoMove(10, Holding, b, Stuck);
  }

  lemma FirstGoesInTwoSteps(b: Pc)
    ensures Goes(Two(0, SawFree, b), Load(10, 0), Two(0, Loaded, b))
    ensures Goes(Two(0, Loaded, b), Store(10, 0), Two(10, Holding, b))
  {
    TwoMove(0, SawFree, b, Loaded);
    TwoMove(0, Loaded, b, Holding);
  }

  /** What worker 20 does, whatever 10 is at. */
  lemma SecondGoes(w: Pid, a: Pc)
    ensures Goes(Two(0, a, Idle), Read(20, 0), Two(0, a, SawFree))
    ensures Goes(Two(0, a, SawFree), Load(20, 0), Two(0, a, Loaded))
    ensures Goes(Two(w, a, Loaded), Store(20, 0), Two(20, a, Holding))
  {
    TwoMove(0, a, Idle, SawFree);
    TwoMove(0, a, SawFree, Loaded);
    TwoMove(w, a, Loaded, Holding);
  }

  lemma SecondLoads()
    ensures Reached(Two(0, Idle, Loaded), false)
  {
    hide Reached, Goes;
    TwoReached(false);
    SecondGoes(0, Idle);
    Reach(Two(0, Idle, Idle), Read(20, 0), Two(0, Idle, SawFree), false);
    Reach(Two(0, Idle, SawFree), Load(20, 0), Two(0, Idle, Loaded), false);
  }

  /** With a compare-and-set that loads and stores in two steps, two workers hold the lock at once. */
  lemma UnlockedCompareAndSetBreaksExclusion()
    ensures Reached(Two(20, Holding, Holding), false) && !Exclusive(Two(20, Holding, Holding))
  {
    hide Reached, Goes;
    SecondLoads();
    FirstGoes(Loaded);
    FirstGoesInTwoSteps(Loaded);
    SecondGoes(10, Holding);
    Reach(Two(0, Idle, Loaded), Read(10, 0), Two(0, SawFree, Loaded), false);
    Reach(Two(0, SawFree, Loaded), Load(10, 0), Two(0, Loaded, Loaded), false);
    Reach(Two(0, Loaded, Loaded), Store(10, 0), Two(10, Holding, Loaded), false);
    Reach(Two(10, Holding, Loaded), Store(20, 0), Two(20, Holding, Holding), false);
    var s := Two(20, Holding, Holding);
    assert Holds(s.live[10][0]) && Holds(s.live[20][0]);
  }

  /** An accept that fails: worker 10 is out of its loop with the lock, and worker 20 reads the word in vain. */
  lemma FailedAcceptShutsOut()
    ensures Reached(Two(10, Stuck, Idle), true) && Goes(Two(10, Stuck, Idle), Read(20, 0), Two(10, Stuck, Idle))
  {
    TwoReached(true);
    FirstGoes(Idle);
    hide Reached;
    assert Goes(Two(10, Stuck, Idle), Read(20, 0), Two(10, Stuck, Idle));
    hide Goes;
    Reach(Two(0, Idle, Idle), Read(10, 0), Two(0, SawFree, Idle), true);
    Reach(Two(0, SawFree, Idle), CompareAndSet(10, 0), Two(10, Holding, Idle), true);
    Reach(Two(10, Holding, Idle), AcceptFails(10, 0), Two(10, Stuck, Idle), true);
  }

  // ----- worker 10 is dead

  /** Worker 20, with what became of worker 10. */
  function Second(word: Pid, pc: Pc, zombies: set<Pid>, queue: seq<Pid>, master: Master): System {
    System([word], map[20 := [pc]], zombies, [10, 20], queue, master, {})
  }

  lemma FirstDies(w: Pid, a: Pc, b: Pc)
    ensures Goes(Two(w, a, b), Die(10), Second(w, b, {10}, [], Watching))
    ensures Goes(Second(w, b, {10}, [], Watching), Reap(10), Second(w, b, {}, [10], Watching))
  {
  }

  lemma MasterMatches(b: Pc)
    ensures Goes(Second(10, b, {}, [10], Watching), BeginRestarts, Second(10, b, {}, [10], Restarting(0, 0, false)))
    ensures Goes(Second(10, b, {}, [10], Restarting(0, 0, false)), CheckWord, Second(10, b, {}, [10], Restarting(0, 0, true)))
  {
  }

  lemma StoreThenClear()
    ensures Goes(Second(10, Loaded, {}, [10], Restarting(0, 0, true)), Store(20, 0), Second(20, Holding, {}, [10], Restarting(0, 0, true)))
    ensures Goes(Second(20, Holding, {}, [10], Restarting(0, 0, true)), ClearWord, Second(0, Holding, {}, [10], Restarting(0, 1, false)))
  {
    assert [Loaded][0 := Holding] == [Holding] && [10][0 := 20] == [20] && [20][0 := 0] == [0];
    assert map[20 := [Loaded]][20 := [Holding]] == map[20 := [Holding]];
  }

  lemma ClearedUnderHolder()
    ensures Reached(Second(0, Holding, {}, [10], Restarting(0, 1, false)), false)
  {
    hide Reached, Goes;
    SecondLoads();
    FirstGoes(Loaded);
    FirstDies(10, Holding, Loaded);
    MasterMatches(Loaded);
    StoreThenClear();
    Reach(Two(0, Idle, Loaded), Read(10, 0), Two(0, SawFree, Loaded), false);
    Reach(Two(0, SawFree, Loaded), CompareAndSet(10, 0), Two(10, Holding, Loaded), false);
    Reach(Two(10, Holding, Loaded), Die(10), Second(10, Loaded, {10}, [], Watching), false);
    Reach(Second(10, Loaded, {10}, [], Watching), Reap(10), Second(10, Loaded, {}, [10], Watching), false);
    Reach(Second(10, Loaded, {}, [10], Watching), BeginRestarts, Second(10, Loaded, {}, [10], Restarting(0, 0, false)), false);
    Reach(Second(10, Loaded, {}, [10], Restarting(0, 0, false)), CheckWord, Second(10, Loaded, {}, [10], Restarting(0, 0, true)), false);
    Reach(Second(10, Loaded, {}, [10], Restarting(0, 0, true)), Store(20, 0), Second(20, Holding, {}, [10], Restarting(0, 0, true)), false);
    Reach(Second(20, Holding, {}, [10], Restarting(0, 0, true)), ClearWord, Second(0, Holding, {}, [10], Restarting(0, 1, false)), false);
  }

  /** A replacement is forked while worker 20 holds the lock that the word no longer shows; it locks too. */
  lemma ReplacementLocksToo(s: System, atomic: bool)
    requires Reached(s, atomic) && s.words == [0] && s.live == map[20 := [Holding]] && Enabled(s, Forked(30))
    ensures exists d: System :: Reached(d, atomic) && !Exclusive(d)
  {
    hide Reached;
    assert seq(1, l => Idle) == [Idle];
    var s1 := Next(s, Forked(30));
    assert s1.live == map[20 := [Holding], 30 := [Idle]] && s1.words == [0];
    Reach(s, Forked(30), s1, atomic);
    var s2 := Next(s1, Read(30, 0));
    assert s2.live[30] == [SawFree] && s2.live[20] == [Holding] && s2.words == [0];
    Reach(s1, Read(30, 0), s2, atomic);
    var s3 := Next(s2, CompareAndSet(30, 0));
    Reach(s2, CompareAndSet(30, 0), s3, atomic);
    assert s3.live[30] == [Holding] && s3.live[20] == [Holding];
    assert Holds(s3.live[20][0]) && Holds(s3.live[30][0]);
  }

  /** The other unclean store: over the name of a dead worker, after the master read it and before it clears. */
  lemma StoreBeforeClearBreaksExclusion()
    ensures exists s: System :: Reached(s, false) && !Exclusive(s)
  {
    hide Reached;
    ClearedUnderHolder();
    ReplacementLocksToo(Second(0, Holding, {}, [10], Restarting(0, 1, false)), false);
  }

  // ----- both workers are dead

  /** Workers 10 and 20 are dead. */
  function Nobody(zombies: set<Pid>, queue: seq<Pid>, master: Master): System {
    System([0], map[], zombies, [10, 20], queue, master, {})
  }

  lemma BothDie()
    ensures Goes(Second(0, Idle, {}, [10], Watching), Die(20), Nobody({20}, [10], Watching))
    ensures Goes(Nobody({20}, [10], Watching), Reap(20), Nobody({}, [10, 20], Watching))
  {
  }

  lemma BothReaped()
    ensures Reached(Nobody({}, [10, 20], Watching), true)
  {
    hide Reached, Goes;
    TwoReached(true);
    FirstDies(0, Idle, Idle);
    BothDie();
    Reach(Two(0, Idle, Idle), Die(10), Second(0, Idle, {10}, [], Watching), true);
    Reach(Second(0, Idle, {10}, [], Watching), Reap(10), Second(0, Idle, {}, [10], Watching), true);
    Reach(Second(0, Idle, {}, [10], Watching), Die(20), Nobody({20}, [10], Watching), true);
    Reach(Nobody({20}, [10], Watching), Reap(20), Nobody({}, [10, 20], Watching), true);
  }

  /** The walk replaces the first by a process that also has pid 20. */
  function Reused(word: Pid, pc: Pc, lock: nat, matched: bool): System {
    System([word], map[20 := [pc]], {}, [20, 20], [10, 20], Restarting(1, lock, matched), {})
  }

  lemma WalkReuses()
    ensures Goes(Nobody({}, [10, 20], Watching), BeginRestarts, Nobody({}, [10, 20], Restarting(0, 0, false)))
    ensures Goes(Nobody({}, [10, 20], Restarting(0, 0, false)), CheckWord, Nobody({}, [10, 20], Restarting(0, 1, false)))
    ensures Goes(Nobody({}, [10, 20], Restarting(0, 1, false)), Forked(20), Reused(0, Idle, 0, false))
  {
    assert Replace([10, 20], 10, 20) == [20, 20];
    assert seq(1, l => Idle) == [Idle];
  }

  lemma ReusedMove(w: Pid, a: Pc, c: Pc)
    ensures Move(Reused(w, a, 0, false), 20, 0, c) == Reused(w, c, 0, false)
  {
    assert [a][0 := c] == [c];
    assert map[20 := [a]][20 := [c]] == map[20 := [c]];
  }

  lemma ReusedLocks()
    ensures Goes(Reused(0, Idle, 0, false), Read(20, 0), Reused(0, SawFree, 0, false))
    ensures Goes(Reused(0, SawFree, 0, false), CompareAndSet(20, 0), Reused(20, Holding, 0, false))
  {
    ReusedMove(0, Idle, SawFree);
    ReusedMove(0, SawFree, Holding);
    assert [0][0 := 20] == [20];
  }

  lemma ReusedIsCleared()
    ensures Goes(Reused(20, Holding, 0, false), CheckWord, Reused(20, Holding, 0, true))
    ensures Goes(Reused(20, Holding, 0, true), ClearWord, Reused(0, Holding, 1, false))
  {
    assert [20][0 := 0] == [0];
  }

  lemma ReusedFreed()
    ensures Reached(Reused(0, Holding, 1, false), true)
  {
    hide Reached, Goes;
    BothReaped();
    WalkReuses();
    ReusedLocks();
    ReusedIsCleared();
    Reach(Nobody({}, [10, 20], Watching), BeginRestarts, Nobody({}, [10, 20], Restarting(0, 0, false)), true);
    Reach(Nobody({}, [10, 20], Restarting(0, 0, false)), CheckWord, Nobody({}, [10, 20], Restarting(0, 1, false)), true);
    Reach(Nobody({}, [10, 20], Restarting(0, 1, false)), Forked(20), Reused(0, Idle, 0, false), true);
    Reach(Reused(0, Idle, 0, false), Read(20, 0), Reused(0, SawFree, 0, false), true);
    Reach(Reused(0, SawFree, 0, false), CompareAndSet(20, 0), Reused(20, Holding, 0, false), true);
    Reach(Reused(20, Holding, 0, false), CheckWord, Reused(20, Holding, 0, true), true);
    Reach(Reused(20, Holding, 0, true), ClearWord, Reused(0, Holding, 1, false), true);
  }

  /** With an atomic compare-and-set, but with the pid of a reaped worker handed out again while it is queued,
      the forced unlock frees a running worker's lock and two workers hold it. */
  lemma ReusedPidBreaksExclusion()
    ensures exists s: System :: Reached(s, true) && !Exclusive(s)
  {
    hide Reached;
    ReusedFreed();
    ReplacementLocksToo(Reused(0, Holding, 1, false), true);
  }
}
