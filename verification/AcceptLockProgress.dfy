/**
 That the accept lock lets its workers work: a free lock is got, an unlocked one is free again
 and its worker back where it was, a worker leaves its loop in two ways only, and the master
 is never stuck in its walk.
 */
module AcceptLockProgress {
  import opened AcceptLock
  import opened AcceptLockRuns
  import opened Basics

  // ----- one worker, one lock

  /** A worker about to try a free lock gets it, whether the compare-and-set is one step or two; nobody else and no
      other lock is touched. */
  lemma FreeLockIsGot(s: System, p: Pid, l: nat)
    requires At(s, p, l, Idle) && s.words[l] == 0
    ensures Enabled(s, Read(p, l)) && At(Next(s, Read(p, l)), p, l, SawFree)
    ensures var t := Next(s, Read(p, l));
            && Enabled(t, CompareAndSet(p, l)) && Enabled(t, Load(p, l)) && Enabled(Next(t, Load(p, l)), Store(p, l))
            && Next(t, CompareAndSet(p, l)) == Next(Next(t, Load(p, l)), Store(p, l))
            && At(Next(t, CompareAndSet(p, l)), p, l, Holding) && Next(t, CompareAndSet(p, l)).words == s.words[l := p]
  {
    var t := Next(s, Read(p, l));
    assert s.live[p][l := SawFree][l := Holding] == s.live[p][l := SawFree][l := Loaded][l := Holding];
    assert t.live[p := t.live[p][l := Holding]] == Next(t, Load(p, l)).live[p := t.live[p][l := Holding]];
  }

  /** A lock that is held stays with its holder, and the worker goes on trying. */
  lemma HeldLockIsRefused(s: System, p: Pid, l: nat)
    requires p in s.live && l < |s.words| && l < |s.live[p]| && s.words[l] != 0
    ensures At(s, p, l, Idle) ==> Enabled(s, Read(p, l)) && Next(s, Read(p, l)) == s
    ensures At(s, p, l, SawFree) ==> Enabled(s, CompareAndSet(p, l)) && Next(s, CompareAndSet(p, l)) == Move(s, p, l, Idle)
    ensures At(s, p, l, SawFree) ==> Enabled(s, Load(p, l)) && Next(s, Load(p, l)) == Move(s, p, l, Idle)
  {
  }

  /** Locking and unlocking is a round trip: afterwards all is as before, and the lock can be got again. */
  lemma LockCycle(s: System, p: Pid, l: nat)
    requires At(s, p, l, Idle) && s.words[l] == 0
    ensures Enabled(s, Read(p, l)) && Enabled(Next(s, Read(p, l)), CompareAndSet(p, l))
    ensures var t := Next(Next(s, Read(p, l)), CompareAndSet(p, l));
            Enabled(t, Unlock(p, l)) && Next(t, Unlock(p, l)) == s
  {
    FreeLockIsGot(s, p, l);
    var pcs := s.live[p];
    assert pcs[l := SawFree][l := Holding][l := Idle] == pcs;
    assert s.words[l := p][l := 0] == s.words;
    assert s.live[p := pcs[l := SawFree]][p := pcs[l := SawFree][l := Holding]][p := pcs] == s.live;
  }

  /** What a worker can do next at each point of its loop. */
  lemma WorkerCanMove(s: System, p: Pid, l: nat)
    requires p in s.live && l < |s.words| && l < |s.live[p]|
    ensures Enabled(s, Die(p))
    ensures s.live[p][l].Idle? ==> Enabled(s, Read(p, l)) && Enabled(s, Leave(p, l))
    ensures s.live[p][l].SawFree? ==> Enabled(s, CompareAndSet(p, l)) && Enabled(s, Load(p, l))
    ensures s.live[p][l].Loaded? ==> Enabled(s, Store(p, l))
    ensures s.live[p][l].Holding? ==> Enabled(s, Unlock(p, l)) && Enabled(s, AcceptFails(p, l))
  {
  }

  // ----- staying in the accept loop

  /** In the accept loop of listener `l`. */
  predicate InLoop(s: System, p: Pid, l: nat) {
    p in s.live && l < |s.words| && l < |s.live[p]|
    && (s.live[p][l].Idle? || s.live[p][l].SawFree? || s.live[p][l].Loaded? || s.live[p][l].Holding?)
  }

  lemma StepStaysInLoop(s: System, st: Step, p: Pid, l: nat)
    requires Enabled(s, st) && InLoop(s, p, l) && p in Next(s, st).live && st !in {AcceptFails(p, l), Leave(p, l)}
    ensures InLoop(Next(s, st), p, l)
  {
  }

  /** A new worker starts in the accept loop of every listener, about to try its lock. */
  lemma NewWorkerIsInLoop(s: System, st: Step, l: nat)
    requires Enabled(s, st) && (st.Spawn? || st.Forked?) && l < |s.words|
    ensures At(Next(s, st), st.p, l, Idle) && InLoop(Next(s, st), st.p, l)
  {
  }

  /** While its process runs, a worker is in the accept loop of a listener up to the step that leaves it: a failed
      accept, or leaving with the lock free. */
  lemma {:induction false} StaysInLoop(r: Run, i: nat, j: nat, p: Pid, l: nat)
    requires IsRun(r) && i <= j < |r.states| && InLoop(r.states[i], p, l)
    requires forall k | i <= k <= j :: p in r.states[k].live
    requires forall k | i <= k < j :: r.steps[k] !in {AcceptFails(p, l), Leave(p, l)}
    ensures InLoop(r.states[j], p, l)
    decreases j
  {
    hide Next, Enabled, InLoop;
    if i < j {
      StaysInLoop(r, i, j - 1, p, l);
      StepStaysInLoop(r.states[j - 1], r.steps[j - 1], p, l);
    }
  }

  lemma StepKeepsLive(s: System, st: Step, p: Pid)
    requires Enabled(s, st) && p in s.live && st != Die(p)
    ensures p in Next(s, st).live
  {
  }

  /** A worker runs until it dies. */
  lemma {:induction false} RunsUntilItDies(r: Run, i: nat, j: nat, p: Pid)
    requires IsRun(r) && i <= j < |r.states| && p in r.states[i].live
    requires forall k | i <= k < j :: r.steps[k] != Die(p)
    ensures p in r.states[j].live
    decreases j
  {
    hide Next, Enabled;
    if i < j {
      RunsUntilItDies(r, i, j - 1, p);
      StepKeepsLive(r.states[j - 1], r.steps[j - 1], p);
    }
  }

  // ----- the master

  /** Outside its walk the master can reap every zombie and begin a walk; in its walk it can always go on, and in one way
      only but for the outcome of a fork, which may give any pid that no process has. */
  lemma MasterCanMove(s: System, p: Pid)
    requires MasterSane(s)
    ensures s.master.Watching? ==> Enabled(s, BeginRestarts) && (Enabled(s, Reap(p)) <==> p in s.zombies)
    ensures s.master.Restarting? ==>
              && (Enabled(s, ClearWord) <==> s.master.matched)
              && (Enabled(s, CheckWord) <==> !s.master.matched && s.master.next < |s.queue| && s.master.lock < |s.words|)
              && (Enabled(s, ForkFails) <==> s.master.next < |s.queue| && s.master.lock == |s.words|)
              && (Enabled(s, Forked(p)) <==> Enabled(s, ForkFails) && p != 0 && p !in s.live && p !in s.zombies)
              && (Enabled(s, EndRestarts) <==> s.master.next == |s.queue|)
              && (Enabled(s, ClearWord) || Enabled(s, CheckWord) || Enabled(s, ForkFails) || Enabled(s, EndRestarts))
    ensures s.master.Starting? ==> Enabled(s, StartWatching) && (Enabled(s, Spawn(p)) <==> p != 0 && p !in s.live && p !in s.zombies)
  {
  }

  /** The steps left in a walk. */
  function WalkLeft(s: System): nat
    requires s.master.Restarting? && s.master.next <= |s.queue| && s.master.lock <= |s.words|
  {
    var entries := |s.queue| - s.master.next;
    (if entries == 0 then 0 else entries * (2 * |s.words| + 1) - 2 * s.master.lock - One(s.master.matched)) + 1
  }

  predicate MasterStep(st: Step) {
    st.CheckWord? || st.ClearWord? || st.Forked? || st.ForkFails? || st.EndRestarts?
  }

  /** Every step of the master brings the end of its walk nearer, and no step of a worker puts it off. */
  lemma WalkComesNearer(s: System, st: Step)
    requires MasterSane(s) && Enabled(s, st) && s.master.Restarting? && MasterSane(Next(s, st)) && Next(s, st).master.Restarting?
    ensures if MasterStep(st) then WalkLeft(Next(s, st)) < WalkLeft(s) else WalkLeft(Next(s, st)) == WalkLeft(s)
  {
    var d, w := Next(s, st), 2 * |s.words| + 1;
    if st.Forked? || st.ForkFails? {
      var entries := |s.queue| - s.master.next;
      assert entries * w == (entries - 1) * w + w;
    }
  }

  ghost function MasterSteps(r: Run, i: nat, j: nat): nat
    requires i <= j <= |r.steps|
    decreases j
  {
    if i == j then 0 else MasterSteps(r, i, j - 1) + One(MasterStep(r.steps[j - 1]))
  }

  /** However the workers interleave, the steps the master has made in a walk and the bound on those left are no more
      than the bound at the start: over `n` entries it makes at most `n * (2 * |words| + 1)` before the last. */
  lemma {:induction false} WalkIsBounded(r: Run, listeners: nat, i: nat, j: nat)
    requires SafeRun(r, listeners) && i <= j < |r.states| && InWalk(r, i, j)
    ensures MasterSane(r.states[i]) && MasterSane(r.states[j])
    ensures MasterSteps(r, i, j) + WalkLeft(r.states[j]) <= WalkLeft(r.states[i])
    decreases j
  {
    hide Next, Enabled, WalkLeft, MasterStep, WordNamesHolder, HolderIsNamed, PidsApart, Init;
    EveryStateIsSafe(r, listeners, i);
    EveryStateIsSafe(r, listeners, j);
    if i < j {
      WalkIsBounded(r, listeners, i, j - 1);
      EveryStateIsSafe(r, listeners, j - 1);
      WalkComesNearer(r.states[j - 1], r.steps[j - 1]);
    }
  }
}
