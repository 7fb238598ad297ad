/**
 The master's table of workers and its queue of pids to restart, as the program keeps them.
 Where they are those of a state of the machine of module `AcceptLock`, each operation is
 proved to do to them what the machine's step does.
 */
module Supervisor {
  import opened AcceptLock

  datatype WaitReply = NoneYet | Interrupted | Failed | Exited(pid: Pid)

  /** What one notification reaps: the first reply that is not an interruption, if it is an exit. */
  function Reaped(replies: seq<WaitReply>): seq<Pid> {
    if replies == [] then []
    else match replies[0]
      case Interrupted => Reaped(replies[1..])
      case Exited(p) => [p]
      case _ => []
  }

  /** Interruptions are passed over; the reply after them decides. */
  lemma {:induction false} ReapedExactly(replies: seq<WaitReply>, k: nat)
    requires k <= |replies| && forall i | 0 <= i < k :: replies[i].Interrupted?
    requires k < |replies| ==> !replies[k].Interrupted?
    ensures Reaped(replies) == if k < |replies| && replies[k].Exited? then [replies[k].pid] else []
    decreases k
  {
    if k > 0 {
      ReapedExactly(replies[1..], k - 1);
    }
  }

  /** The number of interruptions before the first other reply. */
  function Interruptions(replies: seq<WaitReply>): (k: nat)
    ensures k <= |replies| && (forall i | 0 <= i < k :: replies[i].Interrupted?) && (k < |replies| ==> !replies[k].Interrupted?)
  {
    if replies == [] || !replies[0].Interrupted? then 0 else 1 + Interruptions(replies[1..])
  }

  class Supervisor {
    var workers: seq<Pid>   // pids of worker_processes_
    var restart: seq<Pid>   // restart_worker_pid_

    constructor (pids: seq<Pid>)
      ensures workers == pids && restart == []
    {
      workers, restart := pids, [];
    }

    /** The table and queue of the machine's state. */
    ghost predicate Keeps(s: System)
      reads this
    {
      workers == s.slots && restart == s.queue
    }

    /** Replies are what waitpid returns on successive calls. A reaped zombie is the machine's `Reap`. */
    method GetWorkerStatus(replies: seq<WaitReply>, ghost s: System)
      modifies this`restart
      ensures old(Keeps(s)) && Reaped(replies) == [] ==> Keeps(s)
      ensures old(Keeps(s)) && Reaped(replies) != [] && Enabled(s, Reap(Reaped(replies)[0])) ==> Keeps(Next(s, Reap(Reaped(replies)[0])))
      ensures var k := Interruptions(replies);
              restart == if k < |replies| && replies[k].Exited? then old(restart) + [if replies[k].pid in workers then replies[k].pid else 0]
                         else old(restart)
    {
      ReapedExactly(replies, Interruptions(replies));
      var i := 0;
      while i < |replies|
        invariant 0 <= i <= |replies| && restart == old(restart) && Reaped(replies) == Reaped(replies[i..])
      {
        var reply := replies[i];
        if reply.NoneYet? || reply.Failed? {
          return;
        }
        if reply.Exited? {
          var restartPid := 0;
          var k := 0;
          while k < |workers|
            invariant 0 <= k <= |workers| && restartPid == 0 && reply.pid !in workers[..k]
          {
            if workers[k] == reply.pid {
              restartPid := reply.pid;
              break;
            }
            k := k + 1;
          }
          restart := restart + [restartPid];
          return;
        }
        i := i + 1;
      }
    }

    /** The search keeps the last match, or finds none. */
    method FindWorker(pid: Pid) returns (w: int)
      ensures w == LastSlot(workers, pid)
    {
      w := -1;
      for k := 0 to |workers|
        invariant -1 <= w < k
        invariant w == -1 ==> pid !in workers[..k]
        invariant w >= 0 ==> workers[w] == pid && forall j | w < j < k :: workers[j] != pid
      {
        if workers[k] == pid {
          w := k;
        }
      }
      assert workers[..|workers|] == workers;
    }

    /** The end of one iteration of the restart loop, given what fork returned: the machine's `Forked` or `ForkFails`. */
    method Replace(pid: Pid, forked: int, ghost s: System)
      requires pid in workers
      modifies this`workers
      ensures old(Keeps(s)) && AtEntry(s) && pid == s.queue[s.master.next] && forked > 0 && Enabled(s, Forked(forked)) ==> Keeps(Next(s, Forked(forked)))
      ensures old(Keeps(s)) && forked <= 0 && Enabled(s, ForkFails) ==> Keeps(Next(s, ForkFails))
      ensures |workers| == |old(workers)| && (forked <= 0 ==> workers == old(workers))
      ensures forked > 0 ==>
                var k := LastSlot(old(workers), pid);
                workers[k] == forked && forall j | 0 <= j < |workers| && j != k :: workers[j] == old(workers)[j]
    {
      var w := FindWorker(pid);
      if forked > 0 {
        workers := workers[w := forked];
      }
    }
  }
}
