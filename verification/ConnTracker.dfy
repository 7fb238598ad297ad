/**
 A worker process tracks the connections whose request works still exist, and leaves its
 loop on graceful shutdown only when there are none. The accept loop adds a connection
 when it hands the descriptor to a new work; the work's destructor removes it and closes
 the descriptor, which the kernel may then hand out again.
 */
module ConnTracker {
  import opened Basics

  function Fds(works: map<WorkId, Fd>): set<Fd> {
    set w | w in works :: works[w]
  }

  ghost predicate Injective(works: map<WorkId, Fd>) {
    forall v, w | v in works && w in works && v != w :: works[v] != works[w]
  }

  lemma AddFd(works: map<WorkId, Fd>, w: WorkId, fd: Fd)
    requires w !in works
    ensures Fds(works[w := fd]) == Fds(works) + {fd}
    ensures Injective(works) && fd !in Fds(works) ==> Injective(works[w := fd])
  {
    var d := works[w := fd];
    assert d[w] == fd;
    assert forall v | v in works :: d[v] == works[v] && works[v] in Fds(works);
    forall x | x in Fds(works) ensures x in Fds(d) {
      var v :| v in works && works[v] == x;
      assert d[v] == x;
    }
  }

  lemma RemoveFd(works: map<WorkId, Fd>, w: WorkId)
    requires w in works && Injective(works)
    ensures Fds(works - {w}) == Fds(works) - {works[w]} && Injective(works - {w})
  {
    var d := works - {w};
    forall x | x in Fds(works) && x != works[w] ensures x in Fds(d) {
      var v :| v in works && works[v] == x;
      assert v in d && d[v] == x;
    }
  }

  /** As many descriptors as works. */
  lemma {:induction false} CountFds(works: map<WorkId, Fd>)
    requires Injective(works)
    ensures |Fds(works)| == |works|
    decreases |works|
  {
    if works != map[] {
      var w :| w in works;
      var d := works - {w};
      assert d.Keys == works.Keys - {w} && |d.Keys| == |d| && |works.Keys| == |works|;
      RemoveFd(works, w);
      CountFds(d);
      assert works[w] in Fds(works);
    }
  }

  class Worker {
    var conns: set<Fd>                // the keys of conns_
    var shutdown: bool                // graceful_shutdown_
    ghost var works: map<WorkId, Fd>  // request works not yet destroyed, with their descriptors
    ghost var open: set<Fd>           // descriptors the process has open

    ghost predicate Valid()
      reads this
    {
      conns == Fds(works) && Injective(works) && conns <= open
    }

    constructor (ghost inherited: set<Fd>)
      ensures Valid() && works == map[] && !shutdown && open == inherited
    {
      conns, shutdown, works, open := {}, false, map[], inherited;
    }

    /** One connection of the accept loop: `fd` is what accept returned, which was not open. `leave` says
        that the loop ends. The tracker is present, as the last test of the loop demands. */
    method HandleAccepted(fd: Fd, nonBlockOk: bool, hasBuilder: bool, ghost w: WorkId) returns (leave: bool)
      requires Valid() && fd !in open && w !in works
      modifies this`conns, this`works, this`open
      ensures Valid()
      ensures works == if nonBlockOk && hasBuilder then old(works)[w := fd] else old(works)
      ensures open == if nonBlockOk && !hasBuilder then old(open) else old(open) + {fd}
      ensures leave <==> !nonBlockOk || (hasBuilder && shutdown)
    {
      open := open + {fd};
      if !nonBlockOk {
        return true;
      }
      if !hasBuilder {
        open := open - {fd};
        return false;
      }
      AddFd(works, w, fd);
      works := works[w := fd];
      conns := conns + {fd};
      leave := shutdown;
    }

    /** The destructor of a request work. */
    method Destroy(ghost w: WorkId, fd: Fd)
      requires Valid() && w in works && works[w] == fd
      modifies this`conns, this`works, this`open
      ensures Valid() && works == old(works) - {w} && open == old(open) - {fd}
    {
      RemoveFd(works, w);
      conns := conns - {fd};
      open := open - {fd};
      works := works - {w};
    }

    method GetConnSize() returns (n: nat)
      requires Valid()
      ensures n == |works|
    {
      CountFds(works);
      n := |conns|;
    }

    /** The test of the worker's main loop. */
    method MayExit() returns (exit: bool)
      requires Valid()
      ensures exit <==> shutdown && works == map[]
    {
      exit := false;
      if shutdown {
        var n := GetConnSize();
        exit := n == 0;
      }
    }
  }
}
