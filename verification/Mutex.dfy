/**
 The operations on one lock word as the program writes them. Each is proved to do, when no
 other process interferes, what the machine of module `AcceptLock` does in the steps it
 splits the operation into.
 */
module Mutex {
  import opened AcceptLock

  /** TryLock as the machine's read and, if the word was 0, its compare-and-set. */
  function TryLockSteps(s: System, p: Pid, l: nat): System
    requires At(s, p, l, Idle)
  {
    var t := Next(s, Read(p, l));
    if At(t, p, l, SawFree) then Next(t, CompareAndSet(p, l)) else t
  }

  /** ForcedUnlockIfNeed as the machine's read and, if the word matched, its store. */
  function ForcedUnlockSteps(s: System): System
    requires Enabled(s, CheckWord)
  {
    var t := Next(s, CheckWord);
    if Enabled(t, ClearWord) then Next(t, ClearWord) else t
  }

  class AtomicMtx {
    var mapped: bool   // ptr_ is not null
    var word: Pid      // *ptr_

    constructor ()
      ensures mapped && word == 0
    {
      mapped, word := true, 0;
    }

    method AtomicCompareAndSet(expected: Pid, n: Pid) returns (ok: bool)
      modifies this`word
      ensures ok == (old(word) == expected) && word == if ok then n else old(word)
    {
      ok := word == expected;
      if ok {
        word := n;
      }
    }

    method TryLock(pid: Pid, ghost s: System, ghost l: nat) returns (r: int)
      requires At(s, pid, l, Idle) && s.words[l] == word
      modifies this`word
      ensures !mapped ==> r == -1 && word == old(word)
      ensures mapped ==> (r == 0 <==> old(word) == 0) && (r == 0 || r == -1) && word == (if old(word) == 0 then pid else old(word))
      ensures mapped ==> word == TryLockSteps(s, pid, l).words[l]
      ensures mapped ==> r == if TryLockSteps(s, pid, l).live[pid][l].Holding? then 0 else -1
    {
      if !mapped {
        return -1;
      }
      if word == 0 {
        var ok := AtomicCompareAndSet(0, pid);
        if ok {
          return 0;
        }
      }
      r := -1;
    }

    method Unlock(pid: Pid, ghost s: System, ghost l: nat) returns (r: int)
      requires At(s, pid, l, Holding) && s.words[l] == word
      modifies this`word
      ensures mapped ==> (r == 0 <==> old(word) == pid) && (r == 0 || r == -1) && word == (if old(word) == pid then 0 else old(word))
      ensures mapped ==> word == Next(s, Step.Unlock(pid, l)).words[l]
      ensures !mapped ==> r == -1 && word == old(word)
    {
      if !mapped {
        return -1;
      }
      var ok := AtomicCompareAndSet(pid, 0);
      r := if ok then 0 else -1;
    }

    method ForcedUnlockIfNeed(check: Pid, ghost s: System) returns (r: int)
      requires Enabled(s, CheckWord) && s.words[s.master.lock] == word && s.queue[s.master.next] == check
      modifies this`word
      ensures r == 0 && word == (if old(word) == check then 0 else old(word))
      ensures word == ForcedUnlockSteps(s).words[s.master.lock]
      ensures ForcedUnlockSteps(s).master == s.master.(lock := s.master.lock + 1)
    {
      if word == check {
        word := 0;
        return 0;
      }
      r := 0;
    }
  }
}
