/**
 What holds along every run of the accept lock and its supervision, and exactly which steps
 endanger it.
 */
module AcceptLockRuns {
  import opened AcceptLock
  import opened Basics

  type Run = Trace<System, Step>

  ghost predicate IsRun(r: Run) {
    && |r.states| == |r.steps| + 1
    && forall i {:trigger r.steps[i]} | 0 <= i < |r.steps| ::
         Enabled(r.states[i], r.steps[i]) && r.states[i + 1] == Next(r.states[i], r.steps[i])
  }

  /** No store of a compare-and-set overwrites what it should not, and no new pid is one still queued, from the first
      fork on. The first always holds if compare-and-set is atomic. */
  ghost predicate SafeRun(r: Run, listeners: nat) {
    && IsRun(r) && r.states[0] == Init(listeners)
    && forall i {:trigger r.steps[i]} | 0 <= i < |r.steps| :: StoreIsClean(r.states[i], r.steps[i]) && NotQueued(r.states[i], r.steps[i])
  }

  /** The same with new pids in no other slot. */
  ghost predicate GoodRun(r: Run, listeners: nat) {
    && IsRun(r) && r.states[0] == Init(listeners)
    && forall i {:trigger r.steps[i]} | 0 <= i < |r.steps| :: StoreIsClean(r.states[i], r.steps[i]) && Fresh(r.states[i], r.steps[i])
  }

  lemma {:induction false} EveryStateIsSafe(r: Run, listeners: nat, i: nat)
    requires SafeRun(r, listeners) && i < |r.states|
    ensures Safe(r.states[i])
  {
    hide Next, Enabled, Safe, Init;
    if i == 0 {
      InitHolds(listeners);
    } else {
      EveryStateIsSafe(r, listeners, i - 1);
      NextKeepsSafe(r.states[i - 1], r.steps[i - 1]);
    }
  }

  lemma {:induction false} EveryStateIsGood(r: Run, listeners: nat, i: nat)
    requires GoodRun(r, listeners) && i < |r.states|
    ensures Inv(r.states[i])
  {
    hide Next, Enabled, Inv, Init;
    if i == 0 {
      InitHolds(listeners);
    } else {
      EveryStateIsGood(r, listeners, i - 1);
      NextKeeps(r.states[i - 1], r.steps[i - 1]);
    }
  }

  /** New pids in no other slot are not queued, so what holds of safe runs holds of good ones. */
  lemma GoodRunIsSafe(r: Run, listeners: nat)
    requires GoodRun(r, listeners)
    ensures SafeRun(r, listeners)
  {
    hide Next, Enabled, Init, Safe, SlotsAccounted, NotQueued, Fresh;
    forall i | 0 <= i < |r.steps| ensures NotQueued(r.states[i], r.steps[i]) {
      EveryStateIsGood(r, listeners, i);
      FreshIsNotQueued(r.states[i], r.steps[i]);
    }
  }

  /** However the workers interleave, die and are replaced, at most one running worker is between
      a successful TryLock and its Unlock on any one listener. */
  lemma MutualExclusion(r: Run, listeners: nat, i: nat)
    requires SafeRun(r, listeners) && i < |r.states|
    ensures Exclusive(r.states[i])
  {
    EveryStateIsSafe(r, listeners, i);
    SafeIsExclusive(r.states[i]);
  }

  /** The Unlock of a worker that locked always finds its own pid, and frees the lock. */
  lemma UnlockSucceeds(r: Run, listeners: nat, i: nat)
    requires SafeRun(r, listeners) && i < |r.steps| && r.steps[i].Unlock?
    ensures r.steps[i].l < |r.states[i].words| && r.states[i].words[r.steps[i].l] == r.steps[i].p
    ensures r.states[i + 1].words == r.states[i].words[r.steps[i].l := 0]
  {
    EveryStateIsSafe(r, listeners, i);
    assert Enabled(r.states[i], r.steps[i]) && HolderIsNamed(r.states[i], r.steps[i].p);
  }

  /** The two-step forced unlock: whatever happens between its read and its store, the store frees the
      lock of the dead worker that the read found, and of nobody who runs. */
  lemma ForcedUnlockIsSafe(r: Run, listeners: nat, i: nat)
    requires SafeRun(r, listeners) && i < |r.steps| && r.steps[i].ClearWord?
    ensures var s := r.states[i];
            && AtEntry(s) && s.master.lock < |s.words|
            && s.words[s.master.lock] == s.queue[s.master.next] && s.queue[s.master.next] !in s.live
            && forall q | q in s.live :: |s.live[q]| == |s.words| && !Holds(s.live[q][s.master.lock])
  {
    EveryStateIsSafe(r, listeners, i);
    ClearFreesOnlyTheDead(r.states[i]);
  }

  /** A nonzero word names exactly one worker, which locked and did not unlock: it runs and holds the lock,
      or it is dead and its lock is still to be cleared. */
  lemma WordNamesItsHolder(r: Run, listeners: nat, i: nat, l: nat)
    requires SafeRun(r, listeners) && i < |r.states| && l < |r.states[i].words| && r.states[i].words[l] != 0
    ensures var s := r.states[i]; var p := s.words[l];
            && p in s.slots
            && (p in s.live ==> |s.live[p]| == |s.words| && Holds(s.live[p][l]))
            && (p !in s.live ==> p in s.zombies || p in Waiting(s))
            && forall q | q in s.live && q != p :: |s.live[q]| == |s.words| && !Holds(s.live[q][l])
  {
    var s := r.states[i];
    EveryStateIsSafe(r, listeners, i);
    assert WordNamesHolder(s, l) && Present(s, s.words[l]) <= One(s.words[l] in s.slots);
    forall q | q in s.live ensures |s.live[q]| == |s.words| && (Holds(s.live[q][l]) ==> q == s.words[l]) {
      assert HolderIsNamed(s, q);
    }
  }

  /** When the master yields with nothing queued, each slot's worker runs, is dead and unreaped, or was given
      up, and every lock held by a reaped worker has been freed. */
  lemma WalkLeavesNothing(r: Run, listeners: nat, i: nat)
    requires GoodRun(r, listeners) && i < |r.states| && r.states[i].master.Watching? && r.states[i].queue == []
    ensures var s := r.states[i];
            && (forall p | p in s.slots :: p in s.live || p in s.zombies || p in s.abandoned)
            && (forall l | 0 <= l < |s.words| && s.words[l] != 0 :: s.words[l] in s.live || s.words[l] in s.zombies)
  {
    var s := r.states[i];
    EveryStateIsGood(r, listeners, i);
    forall p | p in s.slots ensures p in s.live || p in s.zombies || p in s.abandoned {
      assert Standing(s, p) == 1;
    }
    forall l | 0 <= l < |s.words| && s.words[l] != 0 ensures s.words[l] in s.live || s.words[l] in s.zombies {
      assert WordNamesHolder(s, l);
    }
  }

  /** A running worker is named by the word exactly while it is between locking and unlocking. */
  lemma NamedExactlyWhileHolding(r: Run, listeners: nat, i: nat, p: Pid, l: nat)
    requires SafeRun(r, listeners) && i < |r.states| && p in r.states[i].live && l < |r.states[i].words|
    ensures |r.states[i].live[p]| == |r.states[i].words|
    ensures r.states[i].words[l] == p <==> Holds(r.states[i].live[p][l])
  {
    hide Next, Enabled, PidsApart, MasterSane, Init, WordNamesHolder;
    EveryStateIsSafe(r, listeners, i);
    assert HolderIsNamed(r.states[i], p);
    if !Holds(r.states[i].live[p][l]) {
      IdleIsNotNamed(r.states[i], p, l);
    }
  }

  /** A worker that left its accept loop stays as it left it while it runs. */
  lemma LeftStaysSo(s: System, st: Step, p: Pid, l: nat, pc: Pc)
    requires Enabled(s, st) && At(s, p, l, pc) && (pc.Stuck? || pc.Left?) && p in Next(s, st).live
    ensures At(Next(s, st), p, l, pc)
  {
  }

  lemma LeavesSo(s: System, st: Step, p: Pid, l: nat)
    requires Enabled(s, st) && st in {AcceptFails(p, l), Leave(p, l)}
    ensures At(Next(s, st), p, l, if st.AcceptFails? then Stuck else Left)
  {
  }

  lemma {:induction false} StaysLeft(r: Run, i: nat, j: nat, p: Pid, l: nat, pc: Pc)
    requires IsRun(r) && i <= j < |r.states| && At(r.states[i], p, l, pc) && (pc.Stuck? || pc.Left?)
    requires forall k | i <= k <= j :: p in r.states[k].live
    ensures At(r.states[j], p, l, pc)
    decreases j
  {
    hide Next, Enabled, At;
    if i < j {
      StaysLeft(r, i, j - 1, p, l, pc);
      LeftStaysSo(r.states[j - 1], r.steps[j - 1], p, l, pc);
    }
  }

  /** A worker whose accept failed leaves its loop with the lock: as long as its process runs the word names it,
      and no other worker can hold the lock. */
  lemma FailedAcceptKeepsLock(r: Run, listeners: nat, i: nat, j: nat, p: Pid, l: nat)
    requires SafeRun(r, listeners) && i <= j < |r.states| && At(r.states[i], p, l, Stuck)
    requires forall k | i <= k <= j :: p in r.states[k].live
    ensures At(r.states[j], p, l, Stuck) && r.states[j].words[l] == p
    ensures forall q | q in r.states[j].live && q != p :: |r.states[j].live[q]| == |r.states[j].words| && !Holds(r.states[j].live[q][l])
  {
    hide Next, Enabled, PidsApart, MasterSane, Init, IsRun;
    StaysLeft(r, i, j, p, l, Stuck);
    NamedExactlyWhileHolding(r, listeners, j, p, l);
    forall q | q in r.states[j].live && q != p
      ensures |r.states[j].live[q]| == |r.states[j].words| && !Holds(r.states[j].live[q][l])
    {
      NamedExactlyWhileHolding(r, listeners, j, q, l);
    }
  }

  /** Of the two ways out of its accept loop, a worker keeps the lock while it runs exactly by the failed accept. */
  lemma KeepsLockExactlyIfAcceptFailed(r: Run, listeners: nat, i: nat, j: nat, p: Pid, l: nat)
    requires SafeRun(r, listeners) && i < |r.steps| && i < j < |r.states| && r.steps[i] in {AcceptFails(p, l), Leave(p, l)}
    requires forall k | i < k <= j :: p in r.states[k].live
    ensures l < |r.states[j].words| && (r.states[j].words[l] == p <==> r.steps[i].AcceptFails?)
  {
    hide Next, PidsApart, MasterSane, Init;
    assert Enabled(r.states[i], r.steps[i]) && r.states[i + 1] == Next(r.states[i], r.steps[i]);
    hide Enabled;
    LeavesSo(r.states[i], r.steps[i], p, l);
    StaysLeft(r, i + 1, j, p, l, if r.steps[i].AcceptFails? then Stuck else Left);
    NamedExactlyWhileHolding(r, listeners, j, p, l);
  }

  // ----- supervision

  lemma {:induction false} CountElements<T(!new)>(s: seq<T>)
    requires NoDuplicates(s)
    ensures |Elements(s)| == |s|
  {
    if s != [] {
      CountElements(s[1..]);
      assert Elements(s) == Elements(s[1..]) + {s[0]};
      assert s[0] !in s[1..];
    }
  }

  lemma CountParts<T(!new)>(whole: set<T>, a: set<T>, b: set<T>, c: set<T>, d: set<T>)
    requires forall p :: One(p in a) + One(p in b) + One(p in c) + One(p in d) == One(p in whole)
    ensures |whole| == |a| + |b| + |c| + |d|
  {
    assert a !! b && a + b !! c && a + b + c !! d;
    assert whole == a + b + c + d;
  }

  lemma AccountedCount(s: System)
    requires PidsApart(s) && SlotsAccounted(s)
    ensures |s.slots| == |s.live| + |s.zombies| + |Waiting(s)| + |s.abandoned|
  {
    CountElements(s.slots);
    CountElements(Waiting(s));
    forall p: Pid
      ensures One(p in s.live.Keys) + One(p in s.zombies) + One(p in Elements(Waiting(s))) + One(p in s.abandoned)
              == One(p in Elements(s.slots))
    {
      assert Standing(s, p) == One(p in s.slots);
    }
    CountParts(Elements(s.slots), s.live.Keys, s.zombies, Elements(Waiting(s)), s.abandoned);
    assert |s.live.Keys| == |s.live|;
  }

  /** Workers are conserved: the slots are as many as the workers running, dead and unreaped, queued, and
      given up because a fork failed. */
  lemma WorkersConserved(r: Run, listeners: nat, i: nat)
    requires GoodRun(r, listeners) && i < |r.states|
    ensures var s := r.states[i];
            |s.slots| == |s.live| + |s.zombies| + |Waiting(s)| + |s.abandoned|
  {
    hide Next, Enabled, Init, SlotsAccounted, PidsApart, MasterSane, WordNamesHolder, HolderIsNamed, Waiting;
    EveryStateIsGood(r, listeners, i);
    AccountedCount(r.states[i]);
  }

  lemma StepKeepsSlots(s: System, st: Step)
    requires Enabled(s, st) && !s.master.Starting?
    ensures |Next(s, st).slots| == |s.slots| && !Next(s, st).master.Starting?
  {
  }

  /** After the first forks the number of slots never changes. */
  lemma {:induction false} SlotsStay(r: Run, i: nat, j: nat)
    requires IsRun(r) && i <= j < |r.states| && !r.states[i].master.Starting?
    ensures |r.states[j].slots| == |r.states[i].slots| && !r.states[j].master.Starting?
    decreases j
  {
    hide Next, Enabled;
    if i < j {
      SlotsStay(r, i, j - 1);
      StepKeepsSlots(r.states[j - 1], r.steps[j - 1]);
    }
  }

  ghost function Handled(r: Run, i: nat, j: nat): nat
    requires i <= j <= |r.steps|
    decreases j
  {
    if i == j then 0 else Handled(r, i, j - 1) + One(r.steps[j - 1].Forked? || r.steps[j - 1].ForkFails?)
  }

  lemma WalkStep(s: System, st: Step)
    requires Enabled(s, st) && s.master.Restarting? && Next(s, st).master.Restarting?
    ensures Next(s, st).queue == s.queue
    ensures Next(s, st).master.next == s.master.next + One(st.Forked? || st.ForkFails?)
  {
  }

  /** The master is walking the queue from `i` to `j`. */
  ghost predicate InWalk(r: Run, i: nat, j: nat)
    requires i <= j < |r.states|
  {
    forall k | i <= k <= j :: r.states[k].master.Restarting?
  }

  lemma {:induction false} WalkCounts(r: Run, i: nat, j: nat)
    requires IsRun(r) && i <= j < |r.states| && InWalk(r, i, j)
    ensures r.states[j].queue == r.states[i].queue
    ensures r.states[j].master.next == r.states[i].master.next + Handled(r, i, j)
    decreases j
  {
    hide Next, Enabled;
    if i < j {
      WalkCounts(r, i, j - 1);
      WalkStep(r.states[j - 1], r.steps[j - 1]);
    }
  }

  lemma WalkEnds(s: System, t: System)
    requires Enabled(s, BeginRestarts) && Enabled(t, EndRestarts)
    ensures Next(s, BeginRestarts).queue == s.queue && Next(s, BeginRestarts).master == Restarting(0, 0, false)
    ensures t.master.Restarting? && t.master.next == |t.queue|
  {
  }

  /** A walk makes exactly one fork for each entry that was queued when it began: nothing is queued during
      it, so clearing the queue at its end loses no entry. */
  lemma WalkForksOncePerEntry(r: Run, i: nat, j: nat)
    requires IsRun(r) && i < j < |r.steps| && r.steps[i].BeginRestarts? && r.steps[j].EndRestarts?
    requires InWalk(r, i + 1, j)
    ensures Handled(r, i + 1, j) == |r.states[i].queue| && r.states[j].queue == r.states[i].queue
  {
    hide Next, Enabled, Handled, InWalk;
    assert r.states[i + 1] == Next(r.states[i], r.steps[i]) && Enabled(r.states[j], r.steps[j]);
    hide IsRun;
    WalkEnds(r.states[i], r.states[j]);
    WalkCounts(r, i + 1, j);
  }

  // ----- the two conditions

  /** A step keeps what exclusion rests on exactly if it hands out no pid still queued and stores cleanly. */
  lemma SafeExactly(s: System, st: Step)
    requires Safe(s) && Enabled(s, st)
    ensures Safe(Next(s, st)) <==> NotQueued(s, st) && StoreIsClean(s, st)
  {
    if NotQueued(s, st) && StoreIsClean(s, st) {
      NextKeepsSafe(s, st);
    } else if st.Store? {
      UncleanStore(s, st.p, st.l);
    } else {
      var d := Next(s, st);
      assert Waiting(d) == s.queue[s.master.next + 1..];
      assert Present(d, st.p) > 1;
    }
  }

  /** A store over the name of a running worker makes two holders at once; one that the master is about to clear
      leaves a holder whom the clearing will unname. */
  lemma UncleanStore(s: System, p: Pid, l: nat)
    requires Safe(s) && Enabled(s, Store(p, l)) && !Overwritable(s, l)
    ensures s.words[l] in s.live ==> !Exclusive(Next(s, Store(p, l)))
    ensures s.words[l] !in s.live ==> !MasterSane(Next(s, Store(p, l)))
  {
    var q, d := s.words[l], Next(s, Store(p, l));
    IdleIsNotNamed(s, p, l);
    assert WordNamesHolder(s, l) && Present(s, q) <= One(q in s.slots);
    if q in s.live {
      assert Holds(d.live[p][l]) && Holds(d.live[q][l]) && |d.live[p]| == |d.live[q]|;
    }
  }

  /** A fork keeps the invariant exactly if the new pid is in no other slot. */
  lemma KeptExactlyByFresh(s: System, st: Step)
    requires Inv(s) && Enabled(s, st) && StoreIsClean(s, st)
    ensures Inv(Next(s, st)) <==> Fresh(s, st)
  {
    if Fresh(s, st) {
      NextKeeps(s, st);
    } else if st.Spawn? {
      var k :| 0 <= k < |s.slots| && s.slots[k] == st.p;
      assert Next(s, st).slots[k] == Next(s, st).slots[|s.slots|];
    } else {
      EntryIsCleared(s);
      ReplaceOnce(s.slots, s.queue[s.master.next], st.p);
    }
  }
}
