/**
 The cache of resolved addresses hands them out in turn, by a 32-bit counter taken modulo
 the length of the list. While the counter does not wrap the turns are fair; when it wraps
 they are fair only if the length divides 2^32.
 */
module RoundRobin {
  import opened Basics

  type Ip = nat

  class ResCache {
    var ip: seq<Ip>
    var idx: nat

    constructor (addresses: seq<Ip>)
      ensures ip == addresses && idx == 0
    {
      ip, idx := addresses, 0;
    }

    method PickOne() returns (res: Ip)
      requires idx < TWO32
      modifies this`idx
      ensures ip == [] ==> res == 0 && idx == old(idx)
      ensures ip != [] ==> res == ip[Position(old(idx), 0, |ip|)] && idx == After(old(idx), 1) < TWO32
    {
      if ip == [] {
        return 0;
      }
      res := ip[idx % |ip|];
      idx := (idx + 1) % TWO32;
    }

    /** Picks in a row. If no address is listed twice, each is returned as often as its position is counted. */
    method PickMany(len: nat) returns (rs: seq<Ip>)
      requires idx < TWO32
      modifies this`idx
      ensures |rs| == len && (ip == [] ==> idx == old(idx) && forall t | 0 <= t < len :: rs[t] == 0)
      ensures ip != [] ==> idx == After(old(idx), len) && forall t | 0 <= t < len :: rs[t] == ip[Position(old(idx), t, |ip|)]
      ensures NoDuplicates(ip) ==> forall p | 0 <= p < |ip| :: multiset(rs)[ip[p]] == Count(old(idx), len, |ip|, p)
    {
      hide After, Position, Count, NoDuplicates;
      AtFirst(idx);
      rs := [];
      for i := 0 to len
        invariant |rs| == i && idx < TWO32 && (ip == [] ==> idx == old(idx) && forall t | 0 <= t < i :: rs[t] == 0)
        invariant ip != [] ==> idx == After(old(idx), i) && forall t | 0 <= t < i :: rs[t] == ip[Position(old(idx), t, |ip|)]
      {
        if ip != [] {
          OneMore(old(idx), i, |ip|);
        }
        var res := PickOne();
        rs := rs + [res];
      }
      forall p | 0 <= p < |ip| && NoDuplicates(ip) ensures multiset(rs)[ip[p]] == Count(old(idx), len, |ip|, p) {
        CountReturned(ip, rs, old(idx), p);
      }
    }
  }

  /** The counter after `t` picks. */
  function After(idx: nat, t: nat): nat {
    if t == 0 then idx else (After(idx, t - 1) + 1) % TWO32
  }

  /** The position of the pick that follows `t` picks. */
  function Position(idx: nat, t: nat, n: nat): (p: nat)
    requires n > 0
    ensures p < n
  {
    After(idx, t) % n
  }

  /** How many of `len` picks return position `p`. */
  function Count(idx: nat, len: nat, n: nat, p: nat): nat
    requires n > 0
  {
    if len == 0 then 0 else Count(idx, len - 1, n, p) + One(Position(idx, len - 1, n) == p)
  }

  lemma AtFirst(idx: nat)
    ensures After(idx, 0) == idx
  {
  }

  lemma OneMore(idx: nat, t: nat, n: nat)
    requires n > 0
    ensures Position(After(idx, t), 0, n) == Position(idx, t, n) && After(After(idx, t), 1) == After(idx, t + 1)
  {
    assert After(After(idx, t), 0) == After(idx, t);
  }

  /** If no address is listed twice, an address is returned as often as its position is counted. */
  lemma {:induction false} CountReturned(ip: seq<Ip>, rs: seq<Ip>, idx: nat, p: nat)
    requires NoDuplicates(ip) && p < |ip|
    requires forall t | 0 <= t < |rs| :: rs[t] == ip[Position(idx, t, |ip|)]
    ensures multiset(rs)[ip[p]] == Count(idx, |rs|, |ip|, p)
    decreases |rs|
  {
    hide Position, After;
    if rs != [] {
      var last := |rs| - 1;
      CountReturned(ip, rs[..last], idx, p);
      assert rs == rs[..last] + [rs[last]];
      assert rs[last] == ip[p] <==> Position(idx, last, |ip|) == p;
    }
  }

  // ----- arithmetic

  lemma DivModOf(x: int, n: int, q: int, r: int)
    requires n > 0 && x == n * q + r && 0 <= r < n
    ensures x / n == q && x % n == r
  {
    var d := x / n - q;
    assert x == n * (x / n) + x % n;
    assert n * d == r - x % n;
    assert d >= 1 ==> n * d >= n;
    assert d <= -1 ==> n * d <= -n;
  }

  lemma Successor(x: nat, n: nat)
    requires n > 0
    ensures (x + 1) % n == (if x % n + 1 < n then x % n + 1 else 0)
    ensures (x + 1) / n == x / n + One(x % n + 1 == n)
  {
    if x % n + 1 < n {
      DivModOf(x + 1, n, x / n, x % n + 1);
    } else {
      assert x + 1 == n * (x / n) + n == n * (x / n + 1);
      DivModOf(x + 1, n, x / n + 1, 0);
    }
  }

  lemma AddMultiple(x: nat, n: nat, k: nat)
    requires n > 0
    ensures (x + k * n) / n == x / n + k && (x + k * n) % n == x % n
  {
    assert x + k * n == n * (x / n + k) + x % n;
    DivModOf(x + k * n, n, x / n + k, x % n);
  }

  lemma {:induction false} AfterIsModulo(idx: nat, t: nat)
    requires idx < TWO32
    ensures After(idx, t) == (idx + t) % TWO32
  {
    if t > 0 {
      AfterIsModulo(idx, t - 1);
      Successor(idx + t - 1, TWO32);
    }
  }

  /** A window of `len` picks from `idx` in which wrapping does no harm. */
  predicate Smooth(idx: nat, len: nat, n: nat)
    requires n > 0
  {
    idx < TWO32 && (idx + len <= TWO32 || TWO32 % n == 0)
  }

  lemma Regroup(n: int, m: int, c: int, q: int)
    ensures n * m * c + n * q == n * (m * c + q)
  {
  }

  lemma ModuloOfModulo(x: nat, w: nat, n: nat)
    requires 0 < n && 0 < w && w % n == 0
    ensures (x % w) % n == x % n
  {
    var m, c, y := w / n, x / w, x % w;
    assert w == n * m;
    assert x == n * m * c + y;
    assert y == n * (y / n) + y % n;
    Regroup(n, m, c, y / n);
    DivModOf(x, n, m * c + y / n, y % n);
  }

  lemma SmoothPosition(idx: nat, t: nat, n: nat)
    requires n > 0 && Smooth(idx, t + 1, n)
    ensures Position(idx, t, n) == (idx + t) % n
  {
    AfterIsModulo(idx, t);
    if idx + t >= TWO32 {
      ModuloOfModulo(idx + t, TWO32, n);
    }
  }

  /** How many numbers below `x` are `p` modulo `n`. */
  function Below(x: nat, n: nat, p: nat): nat
    requires n > 0
  {
    x / n + One(x % n > p)
  }

  lemma {:induction false} SmoothCount(idx: nat, len: nat, n: nat, p: nat)
    requires n > 0 && p < n && Smooth(idx, len, n)
    ensures Count(idx, len, n, p) == Below(idx + len, n, p) - Below(idx, n, p)
    decreases len
  {
    if len > 0 {
      SmoothCount(idx, len - 1, n, p);
      SmoothPosition(idx, len - 1, n);
      Successor(idx + len - 1, n);
    }
  }

  // ----- fairness

  /** Any window of `k * n` picks returns each of the `n` positions exactly `k` times. */
  lemma FairWindow(idx: nat, k: nat, n: nat, p: nat)
    requires 0 < n && p < n && Smooth(idx, k * n, n)
    ensures Count(idx, k * n, n, p) == k
  {
    SmoothCount(idx, k * n, n, p);
    AddMultiple(idx, n, k);
  }

  /** In any window the counts of two positions differ by at most one. */
  lemma BalancedWindow(idx: nat, len: nat, n: nat, p: nat, q: nat)
    requires 0 < n && p < n && q < n && Smooth(idx, len, n)
    ensures Count(idx, len, n, p) <= Count(idx, len, n, q) + 1
  {
    SmoothCount(idx, len, n, p);
    SmoothCount(idx, len, n, q);
  }

  /** A window that wraps once counts up to 2^32 and then from 0. */
  lemma {:induction false} WrappedCount(idx: nat, b: nat, n: nat, p: nat)
    requires 0 < n && p < n && idx < TWO32 && b <= TWO32
    ensures Count(idx, TWO32 - idx + b, n, p) == Below(TWO32, n, p) - Below(idx, n, p) + Below(b, n, p)
    decreases b
  {
    if b == 0 {
      SmoothCount(idx, TWO32 - idx, n, p);
      DivModOf(0, n, 0, 0);
    } else {
      WrappedCount(idx, b - 1, n, p);
      AfterIsModulo(idx, TWO32 - idx + (b - 1));
      DivModOf(TWO32 + (b - 1), TWO32, 1, b - 1);
      Successor(b - 1, n);
    }
  }

  lemma Distribute(n: int, x: int, y: int)
    ensures n * x + n * y == n * (x + y)
  {
  }

  /** With `idx + k * n == TWO32 + b`, the quotients and remainders by `n` fall in one of two cases. */
  lemma WrappedRemainders(idx: nat, b: nat, k: nat, n: nat)
    requires 0 < n && idx + k * n == TWO32 + b
    ensures var w, r := TWO32 % n, b % n;
            if w + r < n then idx % n == w + r && TWO32 / n + b / n == idx / n + k
            else idx % n == w + r - n && TWO32 / n + b / n + 1 == idx / n + k
  {
    var w, r := TWO32 % n, b % n;
    var q := TWO32 / n + b / n;
    AddMultiple(idx, n, k);
    Distribute(n, TWO32 / n, b / n);
    assert TWO32 + b == n * (TWO32 / n) + w + (n * (b / n) + r) == n * q + (w + r);
    if w + r < n {
      DivModOf(TWO32 + b, n, q, w + r);
    } else {
      Distribute(n, q, 1);
      assert n * q + (w + r) == n * (q + 1) + (w + r - n);
      DivModOf(TWO32 + b, n, q + 1, w + r - n);
    }
  }

  ghost predicate FairWindowAt(idx: nat, k: nat, n: nat)
    requires n > 0
  {
    forall p: nat | p < n :: FairFrom(idx, k, n, p)
  }

  /** A window in which the counter wraps once is fair exactly if the length divides 2^32 or the picks before
      the wrap are whole turns. */
  lemma WrappedWindowFairExactly(idx: nat, k: nat, n: nat)
    requires 0 < n && idx < TWO32 < idx + k * n <= 2 * TWO32
    ensures FairWindowAt(idx, k, n) <==> TWO32 % n == 0 || (TWO32 - idx) % n == 0
  {
    var b := idx + k * n - TWO32;
    var w, r := TWO32 % n, b % n;
    WrappedRemainders(idx, b, k, n);
    forall p: nat | p < n
      ensures Count(idx, k * n, n, p) == Below(TWO32, n, p) - Below(idx, n, p) + Below(b, n, p)
    {
      WrappedCount(idx, b, n, p);
    }
    WholeTurns(TWO32 - idx, b, k, n);
    if w == 0 || r == 0 {
      assert forall p: nat | p < n :: FairFrom(idx, k, n, p);
    } else {
      var p := if w + r < n then 0 else w + r - n;
      assert !FairFrom(idx, k, n, p);
    }
  }

  lemma WholeTurns(a: nat, b: nat, k: nat, n: nat)
    requires 0 < n && a + b == k * n
    ensures a % n == 0 <==> b % n == 0
  {
    if a % n == 0 {
      assert b == n * (k - a / n) + 0;
      DivModOf(b, n, k - a / n, 0);
    }
    if b % n == 0 {
      assert a == n * (k - b / n) + 0;
      DivModOf(a, n, k - b / n, 0);
    }
  }

  lemma {:induction false} AfterWrap(n: nat, len: nat)
    requires 0 < n <= TWO32 && TWO32 % n != 0 && 0 < len <= n
    ensures Count(TWO32 - 1, len, n, n - 1) == 0
    decreases len
  {
    AfterIsModulo(TWO32 - 1, len - 1);
    if len == 1 {
      Successor(TWO32 - 1, n);
      assert Count(TWO32 - 1, 0, n, n - 1) == 0;
    } else {
      AfterWrap(n, len - 1);
      DivModOf(TWO32 - 1 + len - 1, TWO32, 1, len - 2);
      DivModOf(len - 2, n, 0, len - 2);
    }
  }

  ghost predicate AlwaysFair(n: nat)
    requires n > 0
  {
    forall idx: nat, k: nat, p: nat | idx < TWO32 && p < n :: FairFrom(idx, k, n, p)
  }

  ghost predicate FairFrom(idx: nat, k: nat, n: nat, p: nat)
    requires n > 0
  {
    Count(idx, k * n, n, p) == k
  }

  /** Every window of `k * n` picks is fair, whatever the counter, exactly if the length divides 2^32. */
  lemma AlwaysFairExactly(n: nat)
    requires 0 < n <= TWO32
    ensures AlwaysFair(n) <==> TWO32 % n == 0
  {
    if TWO32 % n == 0 {
      forall idx: nat, k: nat, p: nat | idx < TWO32 && p < n ensures FairFrom(idx, k, n, p) {
        FairWindow(idx, k, n, p);
      }
    } else {
      AfterWrap(n, n);
      assert 1 * n == n;
      assert !FairFrom(TWO32 - 1, 1, n, n - 1);
    }
  }
}
