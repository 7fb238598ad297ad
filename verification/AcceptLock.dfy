/**
 The accept lock shared by worker processes, and the master that replaces dead workers, as
 one transition system over any number of workers and listeners.

 Each listener has one shared word: 0, or the pid of the worker that holds its lock. A
 worker tries the lock by reading the word and then comparing-and-setting it, accepts a
 connection and unlocks. It may die at any point. The master reaps a dead worker when it
 is notified, queues its pid, and later walks the queue: for every listener it reads the
 word, clears it if it names the pid, and then forks a replacement into the same slot.
 The steps of all processes interleave at the granularity of single reads and writes of a
 word; the master's walk is not interleaved with its own reaping, because it does not
 yield in between.
 */
module AcceptLock {
  import opened Basics

  type Pid = nat

  datatype Pc =
    | Idle      // about to read the word
    | SawFree   // read 0, about to compare and set
    | Loaded    // inside a compare-and-set that is not atomic: loaded 0, about to store
    | Holding   // locked, in accept
    | Stuck     // left the loop after a failed accept, without unlocking
    | Left      // left the loop after unlocking

  datatype Master =
    | Starting                                          // forking the first workers
    | Watching                                          // asleep, or reaping when notified
    | Restarting(next: nat, lock: nat, matched: bool)   // at this queue entry and listener

  datatype System = System(
    words: seq<Pid>,
    live: map<Pid, seq<Pc>>,     // one accept loop for each listener
    zombies: set<Pid>,           // dead, not yet reaped
    slots: seq<Pid>,             // worker_processes_
    queue: seq<Pid>,             // restart_worker_pid_
    master: Master,
    abandoned: set<Pid>          // slots whose replacement could not be forked
  )

  datatype Step =
    | Read(p: Pid, l: nat)
    | CompareAndSet(p: Pid, l: nat)
    | Load(p: Pid, l: nat)
    | Store(p: Pid, l: nat)
    | Unlock(p: Pid, l: nat)
    | AcceptFails(p: Pid, l: nat)
    | Leave(p: Pid, l: nat)
    | Die(p: Pid)
    | Spawn(p: Pid)
    | StartWatching
    | Reap(p: Pid)
    | BeginRestarts
    | CheckWord
    | ClearWord
    | Forked(p: Pid)
    | ForkFails
    | EndRestarts

  predicate Holds(pc: Pc) {
    pc.Holding? || pc.Stuck?
  }

  function Init(listeners: nat): System {
    System(seq(listeners, l => 0), map[], {}, [], [], Starting, {})
  }

  // ----- steps

  predicate At(s: System, p: Pid, l: nat, pc: Pc) {
    p in s.live && l < |s.words| && l < |s.live[p]| && s.live[p][l] == pc
  }

  predicate AtEntry(s: System) {
    s.master.Restarting? && s.master.next < |s.queue|
  }

  /** A new pid is not 0 and not that of a process that exists, be it a zombie. */
  predicate Enabled(s: System, st: Step) {
    match st
    case Read(p, l) => At(s, p, l, Idle)
    case CompareAndSet(p, l) => At(s, p, l, SawFree)
    case Load(p, l) => At(s, p, l, SawFree)
    case Store(p, l) => At(s, p, l, Loaded)
    case Unlock(p, l) => At(s, p, l, Holding)
    case AcceptFails(p, l) => At(s, p, l, Holding)
    case Leave(p, l) => At(s, p, l, Idle)
    case Die(p) => p in s.live
    case Spawn(p) => s.master.Starting? && p != 0 && p !in s.live && p !in s.zombies
    case StartWatching => s.master.Starting?
    case Reap(p) => s.master.Watching? && p in s.zombies
    case BeginRestarts => s.master.Watching?
    case CheckWord => AtEntry(s) && !s.master.matched && s.master.lock < |s.words|
    case ClearWord => AtEntry(s) && s.master.matched && s.master.lock < |s.words|
    case Forked(p) => AtEntry(s) && s.master.lock == |s.words| && p != 0 && p !in s.live && p !in s.zombies
    case ForkFails => AtEntry(s) && s.master.lock == |s.words|
    case EndRestarts => s.master.Restarting? && s.master.next == |s.queue|
  }

  function Move(s: System, p: Pid, l: nat, pc: Pc): System
    requires p in s.live && l < |s.live[p]|
  {
    s.(live := s.live[p := s.live[p][l := pc]])
  }

  /** The pid the master queues for a reaped one: itself if it is a worker's, else 0. */
  function RestartPid(slots: seq<Pid>, p: Pid): Pid {
    if p in slots then p else 0
  }

  /** The last slot of a pid, or -1. */
  function LastSlot(slots: seq<Pid>, p: Pid): (k: int)
    ensures -1 <= k < |slots|
    ensures k == -1 <==> p !in slots
    ensures k >= 0 ==> slots[k] == p && forall j | k < j < |slots| :: slots[j] != p
  {
    if slots == [] then -1
    else if slots[|slots| - 1] == p then |slots| - 1
    else
      assert slots == slots[..|slots| - 1] + [slots[|slots| - 1]];
      LastSlot(slots[..|slots| - 1], p)
  }

  function Replace(slots: seq<Pid>, p: Pid, q: Pid): seq<Pid> {
    if p in slots then slots[LastSlot(slots, p) := q] else slots
  }

  function Next(s: System, st: Step): System
    requires Enabled(s, st)
  {
    match st
    case Read(p, l) => if s.words[l] == 0 then Move(s, p, l, SawFree) else s
    case CompareAndSet(p, l) =>
      if s.words[l] == 0 then Move(s, p, l, Holding).(words := s.words[l := p]) else Move(s, p, l, Idle)
    case Load(p, l) => Move(s, p, l, if s.words[l] == 0 then Loaded else Idle)
    case Store(p, l) => Move(s, p, l, Holding).(words := s.words[l := p])
    case Unlock(p, l) =>
      Move(s, p, l, Idle).(words := if s.words[l] == p then s.words[l := 0] else s.words)
    case AcceptFails(p, l) => Move(s, p, l, Stuck)
    case Leave(p, l) => Move(s, p, l, Left)
    case Die(p) => s.(live := s.live - {p}, zombies := s.zombies + {p})
    case Spawn(p) => s.(live := s.live[p := seq(|s.words|, l => Idle)], slots := s.slots + [p])
    case StartWatching => s.(master := Watching)
    case Reap(p) => s.(zombies := s.zombies - {p}, queue := s.queue + [RestartPid(s.slots, p)])
    case BeginRestarts => s.(master := Restarting(0, 0, false))
    case CheckWord =>
      s.(master := if s.words[s.master.lock] == s.queue[s.master.next] then s.master.(matched := true)
                   else s.master.(lock := s.master.lock + 1))
    case ClearWord =>
      s.(words := s.words[s.master.lock := 0], master := s.master.(lock := s.master.lock + 1, matched := false))
    case Forked(p) =>
      s.(live := s.live[p := seq(|s.words|, l => Idle)], slots := Replace(s.slots, s.queue[s.master.next], p),
         master := Restarting(s.master.next + 1, 0, false))
    case ForkFails =>
      s.(abandoned := s.abandoned + {s.queue[s.master.next]}, master := Restarting(s.master.next + 1, 0, false))
    case EndRestarts => s.(queue := [], master := Watching)
  }

  /** The compare-and-set is atomic. */
  predicate Locked(st: Step) {
    !st.Load? && !st.Store?
  }

  /** No running worker is named by the word, and the master is not about to clear it. */
  predicate Overwritable(s: System, l: nat)
    requires l < |s.words|
  {
    s.words[l] == 0 || (s.words[l] !in s.live && !(AtEntry(s) && s.master.matched && s.master.lock == l))
  }

  /** The store of a compare-and-set that is not atomic still finds what its load found, or as good as that. */
  predicate StoreIsClean(s: System, st: Step) {
    st.Store? && st.l < |s.words| ==> Overwritable(s, st.l)
  }

  /** A new worker's pid is not one that the master has yet to walk over. */
  predicate NotQueued(s: System, st: Step) {
    st.Forked? && AtEntry(s) ==> st.p !in s.queue[s.master.next + 1..]
  }

  /** A new worker's pid is in no other slot. */
  predicate Fresh(s: System, st: Step) {
    && (st.Spawn? ==> st.p !in s.slots)
    && (st.Forked? && AtEntry(s) ==> st.p !in s.slots || st.p == s.queue[s.master.next])
  }

  // ----- invariant

  /** The queue entries not yet dealt with. */
  function Waiting(s: System): seq<Pid> {
    if AtEntry(s) then s.queue[s.master.next..] else if s.master.Restarting? then [] else s.queue
  }

  function Present(s: System, p: Pid): nat {
    One(p in s.live) + One(p in s.zombies) + One(p in Waiting(s))
  }

  /** A pid is at most one of running, dead and unreaped, or queued once, and then it has a slot. */
  ghost predicate PidsApart(s: System) {
    && 0 !in s.slots && NoDuplicates(Waiting(s))
    && forall p: Pid :: Present(s, p) <= One(p in s.slots)
  }

  ghost predicate MasterSane(s: System) {
    && (s.master.Starting? ==> s.queue == [])
    && (s.master.Restarting? ==> s.master.next <= |s.queue| && s.master.lock <= |s.words|)
    && (s.master.Restarting? && s.master.matched ==>
          s.master.next < |s.queue| && s.master.lock < |s.words| && s.words[s.master.lock] == s.queue[s.master.next])
  }

  /** The master has dealt with this pid at this listener. */
  predicate Cleared(s: System, p: Pid, l: nat) {
    AtEntry(s) && p == s.queue[s.master.next] && l < s.master.lock
  }

  /** A nonzero word names a worker that locked and did not unlock: one that still runs, or one that
      died and whose lock the master has yet to clear. */
  ghost predicate WordNamesHolder(s: System, l: nat)
    requires l < |s.words|
  {
    var p := s.words[l];
    p != 0 ==>
      || (p in s.live && l < |s.live[p]| && Holds(s.live[p][l]))
      || p in s.zombies
      || (p in Waiting(s) && !Cleared(s, p, l))
  }

  /** A worker between locking and unlocking is named by the word. */
  ghost predicate HolderIsNamed(s: System, p: Pid)
    requires p in s.live
  {
    && |s.live[p]| == |s.words|
    && forall l | 0 <= l < |s.words| :: Holds(s.live[p][l]) ==> s.words[l] == p
  }

  /** What exclusion rests on. */
  ghost predicate Safe(s: System) {
    && PidsApart(s) && MasterSane(s)
    && (forall l | 0 <= l < |s.words| :: WordNamesHolder(s, l))
    && (forall p | p in s.live :: HolderIsNamed(s, p))
  }

  function Standing(s: System, p: Pid): nat {
    Present(s, p) + One(p in s.abandoned)
  }

  /** The pid of every slot is exactly one of running, dead and unreaped, queued, or given up; no other pid is any. */
  ghost predicate SlotsAccounted(s: System) {
    NoDuplicates(s.slots) && forall p: Pid :: Standing(s, p) == One(p in s.slots)
  }

  ghost predicate Inv(s: System) {
    Safe(s) && SlotsAccounted(s)
  }

  /** At most one running worker is between locking and unlocking any one listener. */
  ghost predicate Exclusive(s: System) {
    forall p, q, l | p in s.live && q in s.live && 0 <= l < |s.live[p]| && l < |s.live[q]|
                     && Holds(s.live[p][l]) && Holds(s.live[q][l]) :: p == q
  }

  lemma SafeIsExclusive(s: System)
    requires Safe(s)
    ensures Exclusive(s)
  {
  }

  lemma InitHolds(listeners: nat)
    ensures Inv(Init(listeners))
  {
  }

  // ----- every step keeps what exclusion rests on

  predicate WorkerStep(st: Step) {
    st.Read? || st.CompareAndSet? || st.Load? || st.Store? || st.Unlock? || st.AcceptFails? || st.Leave?
  }

  /** No pid moves between the classes. */
  ghost predicate SamePids(s: System, d: System) {
    && d.live.Keys == s.live.Keys && d.zombies == s.zombies && d.slots == s.slots && d.abandoned == s.abandoned
    && Waiting(d) == Waiting(s)
  }

  lemma SamePidsKeep(s: System, d: System)
    requires SamePids(s, d)
    ensures PidsApart(s) ==> PidsApart(d)
    ensures SlotsAccounted(s) ==> SlotsAccounted(d)
  {
    forall p: Pid ensures Present(d, p) == Present(s, p) && Standing(d, p) == Standing(s, p) { }
  }

  /** What a step of worker `p` at listener `l` changes. */
  ghost predicate Touches(s: System, d: System, p: Pid, l: nat) {
    && SamePids(s, d)
    && d.queue == s.queue && d.master == s.master && |d.words| == |s.words| && l < |s.words|
    && p in s.live && |d.live[p]| == |s.live[p]| == |s.words|
    && (forall q | q in s.live && q != p :: d.live[q] == s.live[q])
    && (forall k | 0 <= k < |s.words| && k != l :: d.live[p][k] == s.live[p][k] && d.words[k] == s.words[k])
  }

  lemma TouchKeeps(s: System, d: System, p: Pid, l: nat)
    requires Safe(s) && Touches(s, d, p, l)
    requires (d.words[l] == s.words[l] != p && !Holds(d.live[p][l]))
             || (d.words[l] == p && Holds(d.live[p][l]) && (s.words[l] == p || Overwritable(s, l)))
             || (d.words[l] == 0 && s.words[l] == p && !Holds(d.live[p][l]))
    ensures Safe(d)
  {
    SamePidsKeep(s, d);
    assert Present(s, p) <= One(p in s.slots);
    assert HolderIsNamed(s, p) && WordNamesHolder(s, l);
    forall k | 0 <= k < |d.words| ensures WordNamesHolder(d, k) {
      assert WordNamesHolder(s, k);
    }
    forall q | q in d.live ensures HolderIsNamed(d, q) {
      assert HolderIsNamed(s, q);
    }
  }

  lemma WorkerKeeps(s: System, st: Step)
    requires Safe(s) && Enabled(s, st) && WorkerStep(st) && StoreIsClean(s, st)
    ensures Safe(Next(s, st))
  {
    hide PidsApart, MasterSane, Touches;
    assert HolderIsNamed(s, st.p) && WordNamesHolder(s, st.l);
    if !Holds(s.live[st.p][st.l]) {
      IdleIsNotNamed(s, st.p, st.l);
    }
    WorkerTouches(s, st);
    TouchKeeps(s, Next(s, st), st.p, st.l);
  }

  lemma WorkerTouches(s: System, st: Step)
    requires Enabled(s, st) && WorkerStep(st) && |s.live[st.p]| == |s.words|
    ensures Touches(s, Next(s, st), st.p, st.l)
  {
  }

  /** A running worker that does not hold the lock is not named by the word. */
  lemma IdleIsNotNamed(s: System, p: Pid, l: nat)
    requires Safe(s) && p in s.live && l < |s.words| && !Holds(s.live[p][l])
    ensures s.words[l] != p
  {
    assert HolderIsNamed(s, p) && WordNamesHolder(s, l);
    assert Present(s, p) <= One(p in s.slots) && Present(s, 0) <= One(0 in s.slots);
  }

  lemma DieKeeps(s: System, p: Pid)
    requires Safe(s) && Enabled(s, Die(p))
    ensures Safe(Next(s, Die(p)))
  {
    var d := Next(s, Die(p));
    forall q: Pid ensures Present(d, q) == Present(s, q) {
      assert Present(s, q) <= One(q in s.slots);
    }
    forall l | 0 <= l < |d.words| ensures WordNamesHolder(d, l) {
      assert WordNamesHolder(s, l);
    }
    forall q | q in d.live ensures HolderIsNamed(d, q) {
      assert HolderIsNamed(s, q);
    }
  }

  /** A reaped process is a worker, so the lookup succeeds and 0 is never queued. */
  lemma ReapedIsWorker(s: System, p: Pid)
    requires Safe(s) && Enabled(s, Reap(p))
    ensures p in s.slots && RestartPid(s.slots, p) == p != 0
  {
    assert Present(s, p) <= One(p in s.slots);
  }

  lemma ReapMovesPid(s: System, p: Pid)
    requires Safe(s) && Enabled(s, Reap(p))
    ensures Waiting(Next(s, Reap(p))) == Waiting(s) + [p] && p !in Waiting(s)
    ensures forall q: Pid :: Present(Next(s, Reap(p)), q) == Present(s, q)
  {
    var d := Next(s, Reap(p));
    ReapedIsWorker(s, p);
    assert Present(s, p) <= One(p in s.slots);
    forall q ensures q in Waiting(d) <==> q in Waiting(s) || q == p {
      assert d.queue[|s.queue|] == p;
    }
    forall q: Pid ensures Present(d, q) == Present(s, q) { }
  }

  lemma ReapKeeps(s: System, p: Pid)
    requires Safe(s) && Enabled(s, Reap(p))
    ensures Safe(Next(s, Reap(p)))
  {
    var d := Next(s, Reap(p));
    ReapMovesPid(s, p);
    forall l | 0 <= l < |d.words| ensures WordNamesHolder(d, l) {
      assert WordNamesHolder(s, l);
    }
    forall q | q in d.live ensures HolderIsNamed(d, q) {
      assert HolderIsNamed(s, q);
    }
  }

  /** Only the master moves, and the same entries are waiting. */
  lemma MasterMoves(s: System, d: System)
    requires Safe(s) && MasterSane(d) && SamePids(s, d) && d.live == s.live && d.words == s.words
    requires forall p: Pid, l: nat | Cleared(d, p, l) && l < |s.words| && s.words[l] == p :: Cleared(s, p, l)
    ensures Safe(d)
  {
    SamePidsKeep(s, d);
    forall l | 0 <= l < |d.words| ensures WordNamesHolder(d, l) {
      assert WordNamesHolder(s, l);
    }
    forall p | p in d.live ensures HolderIsNamed(d, p) {
      assert HolderIsNamed(s, p);
    }
  }

  /** The pid being cleared belongs to no running worker, so nobody running holds this lock. */
  lemma ClearFreesOnlyTheDead(s: System)
    requires Safe(s) && Enabled(s, ClearWord)
    ensures s.words[s.master.lock] == s.queue[s.master.next] && s.queue[s.master.next] !in s.live
    ensures forall q | q in s.live :: |s.live[q]| == |s.words| && !Holds(s.live[q][s.master.lock])
  {
    var p := s.queue[s.master.next];
    assert Waiting(s)[0] == p;
    assert Present(s, p) <= One(p in s.slots);
    forall q | q in s.live ensures |s.live[q]| == |s.words| && !Holds(s.live[q][s.master.lock]) {
      assert HolderIsNamed(s, q);
    }
  }

  lemma ClearWordKeeps(s: System)
    requires Safe(s) && Enabled(s, ClearWord)
    ensures Safe(Next(s, ClearWord))
  {
    var d := Next(s, ClearWord);
    ClearFreesOnlyTheDead(s);
    SamePidsKeep(s, d);
    forall l | 0 <= l < |d.words| ensures WordNamesHolder(d, l) {
      assert WordNamesHolder(s, l);
    }
    forall q | q in d.live ensures HolderIsNamed(d, q) {
      assert HolderIsNamed(s, q);
    }
  }

  lemma CheckWordKeeps(s: System)
    requires Safe(s) && Enabled(s, CheckWord)
    ensures Safe(Next(s, CheckWord))
  {
    MasterMoves(s, Next(s, CheckWord));
  }

  /** The pid about to be replaced has a slot, and no word names it any more. */
  lemma EntryIsCleared(s: System)
    requires Safe(s) && AtEntry(s) && s.master.lock == |s.words|
    ensures s.queue[s.master.next] in s.slots && s.queue[s.master.next] !in s.words
    ensures forall q :: q in Waiting(s) <==> q == s.queue[s.master.next] || q in s.queue[s.master.next + 1..]
    ensures s.queue[s.master.next] !in s.queue[s.master.next + 1..] && NoDuplicates(s.queue[s.master.next + 1..])
    ensures s.queue[s.master.next] !in s.live && s.queue[s.master.next] !in s.zombies
  {
    var p := s.queue[s.master.next];
    var rest := s.queue[s.master.next + 1..];
    assert Waiting(s) == [p] + rest && Waiting(s)[0] == p;
    assert forall i | 0 <= i < |rest| :: rest[i] == Waiting(s)[i + 1];
    assert Present(s, p) <= One(p in s.slots);
    assert Present(s, 0) <= One(0 in s.slots);
    forall l | 0 <= l < |s.words| ensures s.words[l] != p {
      assert WordNamesHolder(s, l);
    }
  }

  lemma ForkFailsKeeps(s: System)
    requires Safe(s) && Enabled(s, ForkFails)
    ensures Safe(Next(s, ForkFails))
  {
    var d := Next(s, ForkFails);
    EntryIsCleared(s);
    assert Waiting(d) == s.queue[s.master.next + 1..];
    forall q: Pid ensures Present(d, q) <= Present(s, q) {
      assert Present(s, q) <= One(q in s.slots);
    }
    forall l | 0 <= l < |d.words| ensures WordNamesHolder(d, l) {
      assert WordNamesHolder(s, l);
    }
    forall q | q in d.live ensures HolderIsNamed(d, q) {
      assert HolderIsNamed(s, q);
    }
  }

  lemma ReplaceKeepsOthers(slots: seq<Pid>, p: Pid, q: Pid)
    requires p in slots
    ensures q in Replace(slots, p, q) && forall x | x in slots && x != p :: x in Replace(slots, p, q)
    ensures forall x | x in Replace(slots, p, q) :: x in slots || x == q
  {
    var k := LastSlot(slots, p);
    var r := slots[k := q];
    assert r[k] == q;
    forall x | x in slots && x != p ensures x in r {
      var j :| 0 <= j < |slots| && slots[j] == x;
      assert r[j] == x;
    }
  }

  lemma ForkedKeeps(s: System, p: Pid)
    requires Safe(s) && Enabled(s, Forked(p)) && NotQueued(s, Forked(p))
    ensures Safe(Next(s, Forked(p)))
  {
    var d := Next(s, Forked(p));
    EntryIsCleared(s);
    ReplaceKeepsOthers(s.slots, s.queue[s.master.next], p);
    assert Waiting(d) == s.queue[s.master.next + 1..];
    forall q: Pid ensures Present(d, q) <= One(q in d.slots) {
      assert Present(s, q) <= One(q in s.slots);
    }
    forall l | 0 <= l < |d.words| ensures WordNamesHolder(d, l) {
      assert WordNamesHolder(s, l);
    }
    forall q | q in d.live ensures HolderIsNamed(d, q) {
      if q != p {
        assert HolderIsNamed(s, q);
      }
    }
  }

  lemma SpawnKeeps(s: System, p: Pid)
    requires Safe(s) && Enabled(s, Spawn(p))
    ensures Safe(Next(s, Spawn(p)))
  {
    var d := Next(s, Spawn(p));
    assert d.slots[|s.slots|] == p;
    forall q: Pid ensures Present(d, q) <= One(q in d.slots) {
      assert Present(s, q) <= One(q in s.slots);
    }
    forall l | 0 <= l < |d.words| ensures WordNamesHolder(d, l) {
      assert WordNamesHolder(s, l);
    }
    forall q | q in d.live ensures HolderIsNamed(d, q) {
      if q != p {
        assert HolderIsNamed(s, q);
      }
    }
  }

  /** With clean stores and new pids not still queued, every step keeps it. */
  lemma NextKeepsSafe(s: System, st: Step)
    requires Safe(s) && Enabled(s, st) && StoreIsClean(s, st) && NotQueued(s, st)
    ensures Safe(Next(s, st))
  {
    match st
    case Die(p) => DieKeeps(s, p);
    case Spawn(p) => SpawnKeeps(s, p);
    case Reap(p) => ReapKeeps(s, p);
    case StartWatching => MasterMoves(s, Next(s, st));
    case BeginRestarts => MasterMoves(s, Next(s, st));
    case EndRestarts => MasterMoves(s, Next(s, st));
    case CheckWord => CheckWordKeeps(s);
    case ClearWord => ClearWordKeeps(s);
    case Forked(p) => ForkedKeeps(s, p);
    case ForkFails => ForkFailsKeeps(s);
    case _ => WorkerKeeps(s, st);
  }

  // ----- every step keeps the account of the slots

  lemma ReplaceOnce(slots: seq<Pid>, p: Pid, q: Pid)
    requires NoDuplicates(slots) && p in slots
    ensures NoDuplicates(Replace(slots, p, q)) <==> q !in slots || q == p
    ensures q !in slots || q == p ==> forall x :: x in Replace(slots, p, q) <==> (x in slots && x != p) || x == q
  {
    ReplaceKeepsOthers(slots, p, q);
    var k := LastSlot(slots, p);
    var r := slots[k := q];
    assert r[k] == q;
    if q in slots && q != p {
      var j :| 0 <= j < |slots| && slots[j] == q;
      assert r[j] == q && j != k;
    }
  }

  lemma ForkedAccounts(s: System, p: Pid)
    requires Inv(s) && Enabled(s, Forked(p)) && Fresh(s, Forked(p))
    ensures SlotsAccounted(Next(s, Forked(p)))
  {
    var d := Next(s, Forked(p));
    EntryIsCleared(s);
    ReplaceOnce(s.slots, s.queue[s.master.next], p);
    assert Waiting(d) == s.queue[s.master.next + 1..];
    assert Standing(s, p) == One(p in s.slots);
    forall q: Pid ensures Standing(d, q) == One(q in d.slots) {
      assert Standing(s, q) == One(q in s.slots);
    }
  }

  lemma ForkFailsAccounts(s: System)
    requires Inv(s) && Enabled(s, ForkFails)
    ensures SlotsAccounted(Next(s, ForkFails))
  {
    var d := Next(s, ForkFails);
    EntryIsCleared(s);
    assert Waiting(d) == s.queue[s.master.next + 1..];
    forall q: Pid ensures Standing(d, q) == Standing(s, q) {
      assert Standing(s, q) == One(q in s.slots);
    }
  }

  lemma SpawnAccounts(s: System, p: Pid)
    requires Inv(s) && Enabled(s, Spawn(p)) && Fresh(s, Spawn(p))
    ensures SlotsAccounted(Next(s, Spawn(p)))
  {
    var d := Next(s, Spawn(p));
    assert d.slots[|s.slots|] == p;
    forall q: Pid ensures Standing(d, q) == One(q in d.slots) {
      assert Standing(s, q) == One(q in s.slots);
    }
  }

  lemma DieAccounts(s: System, p: Pid)
    requires Inv(s) && Enabled(s, Die(p))
    ensures SlotsAccounted(Next(s, Die(p)))
  {
    forall q: Pid ensures Standing(Next(s, Die(p)), q) == Standing(s, q) {
      assert Standing(s, q) == One(q in s.slots);
    }
  }

  lemma ReapAccounts(s: System, p: Pid)
    requires Inv(s) && Enabled(s, Reap(p))
    ensures SlotsAccounted(Next(s, Reap(p)))
  {
    ReapMovesPid(s, p);
    forall q: Pid ensures Standing(Next(s, Reap(p)), q) == Standing(s, q) { }
  }

  /** A pid in no other slot is not queued. */
  lemma FreshIsNotQueued(s: System, st: Step)
    requires Safe(s) && Enabled(s, st) && Fresh(s, st)
    ensures NotQueued(s, st)
  {
    if st.Forked? {
      EntryIsCleared(s);
      assert Present(s, st.p) <= One(st.p in s.slots);
    }
  }

  /** With new pids in no other slot, every step keeps the account as well. */
  lemma NextKeeps(s: System, st: Step)
    requires Inv(s) && Enabled(s, st) && StoreIsClean(s, st) && Fresh(s, st)
    ensures Inv(Next(s, st))
  {
    hide Safe, SlotsAccounted;
    FreshIsNotQueued(s, st);
    NextKeepsSafe(s, st);
    var d := Next(s, st);
    match st
    case Die(p) => DieAccounts(s, p);
    case Spawn(p) => SpawnAccounts(s, p);
    case Reap(p) => ReapAccounts(s, p);
    case Forked(p) => ForkedAccounts(s, p);
    case ForkFails => ForkFailsAccounts(s);
    case _ => SamePidsKeep(s, d);
  }
}
