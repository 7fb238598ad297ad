/** Notions shared by the other modules. */
module Basics {

  const TWO31: nat := 0x8000_0000
  const TWO32: nat := 0x1_0000_0000
  const TWO63: nat := 0x8000_0000_0000_0000
  const TWO64: nat := 0x1_0000_0000_0000_0000

  type Byte = x: int | 0 <= x < 256

  datatype Option<T> = None | Some(value: T)

  function One(b: bool): nat {
    if b then 1 else 0
  }

  ghost predicate NoDuplicates<T>(s: seq<T>) {
    forall i, j | 0 <= i < j < |s| :: s[i] != s[j]
  }

  function Elements<T(!new, ==)>(s: seq<T>): (r: set<T>)
    ensures forall x :: x in r <==> x in s
  {
    set x | x in s
  }

  type Fd = int
  type WorkId = nat

  /** States joined by steps. */
  datatype Trace<S, T> = Trace(states: seq<S>, steps: seq<T>)

  ghost function Last<S, T>(r: Trace<S, T>): S
    requires |r.states| == |r.steps| + 1
  {
    r.states[|r.steps|]
  }

  ghost function Extended<S, T>(r: Trace<S, T>, st: T, s: S): Trace<S, T> {
    Trace(r.states + [s], r.steps + [st])
  }

  /** The value of an integer stored in a 32-bit signed integer. */
  function Int32(x: int): (r: int)
    ensures -(TWO31 as int) <= r < TWO31
  {
    (x + TWO31) % TWO32 - TWO31
  }

  /** The value of an integer converted to 64-bit unsigned. */
  function UInt64(x: int): (r: nat)
    ensures r < TWO64
  {
    x % TWO64
  }
}
