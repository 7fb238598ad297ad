/**
 The vector of sleeping threads is kept as a binary heap by the two standard
 algorithms `push_heap` and `pop_heap`, ordered by wake-up time, earliest at the front.
 This module gives both algorithms as functions on sequences and proves the contracts
 of section 25.4.6 of ISO/IEC 14882:2011: they permute the elements and keep the heap.

 A heap holds thread numbers; the key of a thread is looked up in `key`, as the
 comparator looks up the wake-up time inside the thread.
 */
module SleeperHeap {
  import opened Basics

  type Tid = nat

  /** Every element has a key. */
  predicate Keyed(s: seq<Tid>, key: map<Tid, nat>) {
    forall i | 0 <= i < |s| :: s[i] in key
  }

  /** The element at `i` is no earlier than its parent. */
  ghost predicate InOrder(s: seq<Tid>, key: map<Tid, nat>, i: nat)
    requires 0 < i < |s| && Keyed(s, key)
  {
    key[s[(i - 1) / 2]] <= key[s[i]]
  }

  ghost predicate IsHeap(s: seq<Tid>, key: map<Tid, nat>)
    requires Keyed(s, key)
  {
    forall i | 0 < i < |s| :: InOrder(s, key, i)
  }

  function Swap(s: seq<Tid>, i: nat, j: nat): (r: seq<Tid>)
    requires i < |s| && j < |s|
    ensures |r| == |s| && multiset(r) == multiset(s)
    ensures r[i] == s[j] && r[j] == s[i]
    ensures forall k | 0 <= k < |s| && k != i && k != j :: r[k] == s[k]
  {
    s[i := s[j]][j := s[i]]
  }

  // ----- push_heap

  /** A heap except that `k` may be earlier than its parent. */
  ghost predicate HeapBut(s: seq<Tid>, key: map<Tid, nat>, k: nat)
    requires Keyed(s, key)
  {
    && (forall i | 0 < i < |s| && i != k :: InOrder(s, key, i))
    && (forall i | 0 < i < |s| && (i - 1) / 2 == k && k > 0 :: key[s[(k - 1) / 2]] <= key[s[i]])
  }

  lemma SwapWithParent(s: seq<Tid>, key: map<Tid, nat>, k: nat)
    requires 0 < k < |s| && Keyed(s, key) && HeapBut(s, key, k) && key[s[k]] < key[s[(k - 1) / 2]]
    ensures HeapBut(Swap(s, k, (k - 1) / 2), key, (k - 1) / 2)
  {
    var p := (k - 1) / 2;
    var r := Swap(s, k, p);
    forall i | 0 < i < |r| && i != p ensures InOrder(r, key, i) {
      assert i == k || InOrder(s, key, i);
    }
    forall i | 0 < i < |r| && (i - 1) / 2 == p && p > 0 ensures key[r[(p - 1) / 2]] <= key[r[i]] {
      assert InOrder(s, key, p) && (i == k || InOrder(s, key, i));
    }
  }

  /** Moves the element at `k` up until its parent is no later. */
  function SiftUp(s: seq<Tid>, key: map<Tid, nat>, k: nat): (r: seq<Tid>)
    requires k < |s| && Keyed(s, key)
    requires HeapBut(s, key, k)
    ensures Keyed(r, key) && IsHeap(r, key)
    ensures multiset(r) == multiset(s)
    decreases k
  {
    if k == 0 || key[s[(k - 1) / 2]] <= key[s[k]] then s
    else
      SwapWithParent(s, key, k);
      SiftUp(Swap(s, k, (k - 1) / 2), key, (k - 1) / 2)
  }

  lemma HeapPrefix(s: seq<Tid>, key: map<Tid, nat>, n: nat)
    requires n <= |s| && Keyed(s, key)
    ensures IsHeap(s[..n], key) <==> forall i | 0 < i < n :: InOrder(s, key, i)
  {
    forall i | 0 < i < n ensures InOrder(s[..n], key, i) <==> InOrder(s, key, i) { }
  }

  /** `push_heap`: the last element joins the heap formed by the others. */
  function PushHeap(s: seq<Tid>, key: map<Tid, nat>): (r: seq<Tid>)
    requires |s| > 0 && Keyed(s, key)
    requires IsHeap(s[..|s| - 1], key)
    ensures Keyed(r, key) && IsHeap(r, key)
    ensures multiset(r) == multiset(s)
  {
    HeapPrefix(s, key, |s| - 1);
    SiftUp(s, key, |s| - 1)
  }

  // ----- pop_heap

  /** The first `n` elements form a heap except that `k` may be later than its children. */
  ghost predicate HeapBelow(s: seq<Tid>, key: map<Tid, nat>, n: nat, k: nat)
    requires n <= |s| && Keyed(s, key)
  {
    && (forall i | 0 < i < n && (i - 1) / 2 != k :: InOrder(s, key, i))
    && (forall i | 0 < i < n && (i - 1) / 2 == k && k > 0 :: key[s[(k - 1) / 2]] <= key[s[i]])
  }

  /** The earlier child of `k` among the first `n` elements. */
  function EarlierChild(s: seq<Tid>, key: map<Tid, nat>, n: nat, k: nat): (c: nat)
    requires n <= |s| && 2 * k + 1 < n && Keyed(s, key)
    ensures c < n && (c - 1) / 2 == k && k < c
    ensures forall i | 0 < i < n && (i - 1) / 2 == k :: key[s[c]] <= key[s[i]]
  {
    if 2 * k + 2 < n && key[s[2 * k + 2]] < key[s[2 * k + 1]] then 2 * k + 2 else 2 * k + 1
  }

  lemma SwapWithChild(s: seq<Tid>, key: map<Tid, nat>, n: nat, k: nat)
    requires n <= |s| && Keyed(s, key) && HeapBelow(s, key, n, k) && 2 * k + 1 < n
    requires key[s[EarlierChild(s, key, n, k)]] < key[s[k]]
    ensures HeapBelow(Swap(s, k, EarlierChild(s, key, n, k)), key, n, EarlierChild(s, key, n, k))
  {
    var c := EarlierChild(s, key, n, k);
    var r := Swap(s, k, c);
    forall i | 0 < i < n && (i - 1) / 2 != c ensures InOrder(r, key, i) {
      assert (i - 1) / 2 == k || InOrder(s, key, i);
    }
    forall i | 0 < i < n && (i - 1) / 2 == c ensures key[r[(c - 1) / 2]] <= key[r[i]] {
      assert InOrder(s, key, i);
    }
  }

  /** Moves the element at `k` down until no child among the first `n` elements is earlier. */
  function SiftDown(s: seq<Tid>, key: map<Tid, nat>, n: nat, k: nat): (r: seq<Tid>)
    requires n <= |s| && Keyed(s, key)
    requires HeapBelow(s, key, n, k)
    ensures |r| == |s| && Keyed(r, key) && IsHeap(r[..n], key)
    ensures multiset(r) == multiset(s)
    ensures r[n..] == s[n..]
    decreases n - k
  {
    HeapPrefix(s, key, n);
    if 2 * k + 1 >= n then s
    else
      var c := EarlierChild(s, key, n, k);
      if key[s[k]] <= key[s[c]] then s
      else
        SwapWithChild(s, key, n, k);
        SiftDown(Swap(s, k, c), key, n, c)
  }

  /** `pop_heap`: the front moves to the back and the others form a heap. */
  function PopHeap(s: seq<Tid>, key: map<Tid, nat>): (r: seq<Tid>)
    requires |s| > 0 && Keyed(s, key) && IsHeap(s, key)
    ensures |r| == |s| && Keyed(r, key) && IsHeap(r[..|s| - 1], key)
    ensures multiset(r) == multiset(s)
    ensures r[|s| - 1] == s[0]
  {
    var m := Swap(s, 0, |s| - 1);
    assert HeapBelow(m, key, |s| - 1, 0) by {
      forall i | 0 < i < |s| - 1 && (i - 1) / 2 != 0 ensures InOrder(m, key, i) {
        assert InOrder(s, key, i);
      }
    }
    var r := SiftDown(m, key, |s| - 1, 0);
    assert r[|s| - 1] == r[|s| - 1..][0] == m[|s| - 1..][0];
    r
  }

  // ----- consequences

  /** The front of a heap is a minimum. */
  lemma {:induction false} FrontIsEarliest(s: seq<Tid>, key: map<Tid, nat>, i: nat)
    requires i < |s| && Keyed(s, key) && IsHeap(s, key)
    ensures key[s[0]] <= key[s[i]]
  {
    if i > 0 {
      assert InOrder(s, key, i);
      FrontIsEarliest(s, key, (i - 1) / 2);
    }
  }

  /** Permuting keeps the elements and the absence of duplicates. */
  lemma PermutationKeeps<T>(s: seq<T>, r: seq<T>)
    requires multiset(s) == multiset(r)
    ensures |s| == |r|
    ensures forall x :: x in s <==> x in r
    ensures NoDuplicates(s) ==> NoDuplicates(r)
  {
    assert |multiset(s)| == |s| && |multiset(r)| == |r|;
    forall x ensures x in s <==> x in r {
      assert x in s <==> x in multiset(s);
      assert x in r <==> x in multiset(r);
    }
    if NoDuplicates(s) {
      CountAtMostOne(s);
      NoDuplicatesByCount(r);
    }
  }

  lemma NoDuplicatesByCount<T>(r: seq<T>)
    requires forall x :: multiset(r)[x] <= 1
    ensures NoDuplicates(r)
  {
    forall i, j | 0 <= i < j < |r| ensures r[i] != r[j] {
      var rest := r[..i] + r[i + 1..];
      assert rest[j - 1] == r[j];
      assert r == r[..i] + [r[i]] + r[i + 1..];
      assert multiset(r) == multiset(rest) + multiset{r[i]};
      assert multiset(r)[r[i]] == multiset(rest)[r[i]] + 1;
      assert r[j] in rest && multiset(rest)[r[j]] >= 1;
    }
  }

  lemma {:induction false} CountAtMostOne<T>(s: seq<T>)
    requires NoDuplicates(s)
    ensures forall x :: multiset(s)[x] <= 1
  {
    if s != [] {
      CountAtMostOne(s[1..]);
      assert s == [s[0]] + s[1..];
      assert s[0] !in s[1..];
      assert multiset(s)[s[0]] == 1 + multiset(s[1..])[s[0]];
      assert s[0] !in multiset(s[1..]);
    }
  }
}
