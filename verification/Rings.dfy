/** Fixed arrays used as rings: a window of consecutive slots around the end of the array. */
module Rings {

  function Wrap(i: nat, n: nat): nat {
    if i >= n then i - n else i
  }

  /** The `len` slots from `get` on, around the end of the array. */
  function Window<T>(slots: seq<T>, get: nat, len: nat): (w: seq<T>)
    requires get < |slots| && len <= |slots|
    ensures |w| == len && forall i :: 0 <= i < len ==> w[i] == slots[Wrap(get + i, |slots|)]
  {
    seq(len, i requires 0 <= i < len => slots[Wrap(get + i, |slots|)])
  }

  /** Writing the slot behind a window that is not full extends it and overwrites none of it. */
  lemma WindowPut<T>(slots: seq<T>, get: nat, len: nat, v: T)
    requires get < |slots| && len < |slots|
    ensures Window(slots[Wrap(get + len, |slots|) := v], get, len + 1) == Window(slots, get, len) + [v]
  {}

  lemma WindowTake<T>(slots: seq<T>, get: nat, len: nat)
    requires get < |slots| && 1 <= len <= |slots|
    ensures Window(slots, Wrap(get + 1, |slots|), len - 1) == Window(slots, get, len)[1..]
    ensures Window(slots, get, len)[0] == slots[get]
  {}
}
